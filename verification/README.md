# Verified models of the latency benchmarks and SmallOS

This project models, in Dafny, the parts of the repository whose correctness is hardest to see,
and proves what they are for.

* **The lock-free ring** (`bench/common/rte_ring.h`).  `RingMachine` is an interleaved machine for
  any number of threads, one shared access at a step: index reads, compare-and-set, every slot
  write and read, watermark read, tail test, tail store.  `RingInvariant` adds history variables
  (unbounded counters whose residues mod 2^32 are the fields, the sequence of reserved objects,
  who reserved what) and the invariant; `RingSafety` proves that every step keeps it; `RingRuns`
  draws FIFO order and the refinement of an atomic queue for whole runs, `RingReplies` from
  arguments of calls to what callers get; `RingProperties`,
  `RingProgress`, `RingCalls`, `RingObservers` and `RingMotion` the other promises (the tail
  hand-off ends, every call returns, what the queries mean); `RingStale` the runs in which
  comments or checks of the source do not hold.  `RingObject` has the single-producer and single-consumer
  operations as methods over an array.
* **The message protocol of benchmark 503** (`SlotsProtocol`, `SlotsInvariant`, `SlotsRuns`): the
  round barrier of one application thread and two io threads, its round numbers, its bounds, its
  end.
* **The code generator of benchmark 502** (`Congruential`, `LinearCode`, `X86`, `LinearCodeRun`):
  the full-period theorem for its sequence of call targets, and what the emitted bytes do when a
  processor runs them.
* **The text console of SmallOS** (`Transcript`, `Console`): 25 rows scrolled in place are a window
  on an unbounded page.
* **The image writer and the boot loader** (`ImageText`, `ImageWriter`, `ImageLoader`,
  `ImageRoundTrip`, `ImageSections`, `ImageExact`): two programs in two languages that have to agree.
* **Numbers and locked output** (`Numbers`, `Serial`, `SerialLock`).

`dafny verify dfyconfig.toml` checks everything.

## Assumptions

* Interleavings are sequentially consistent.  The ring has a store fence between copying
  and publishing and a load fence before reading, and leaves the rest to the ordering of x86.
* A compare-and-set on a ring index is never reached when a positive multiple of 2^32 positions
  were reserved since its thread read the index (`RingInvariant.Allowed`).  This is the exact
  condition: `RingStale.StepSafeIff` shows that all other steps are safe and these are not, and
  `RingStale.DistanceMatters` is a run that comes to one.
* Bulk counts are at least 1, as the documentation of the operations demands.  A ring made with
  count 0, which the power-of-two test lets through, has no slots and is no valid ring; nothing is
  said about operations on it.
* A ring created for a single producer (consumer) is entered by one producer (consumer) at a time.
* Benchmark 503 is the Linux build: the static variables of `io_func` are shared by both io
  threads.  Both increment the same two payloads without a lock, so these increments may leave any
  value.  Its rings are atomic FIFO queues of 32767 places, as the refinement of the ring allows.
  The number of rounds is any N from 1 to 2^32 - 1; the source has 40.
* In benchmark 502 int arithmetic that overflows wraps, as the machine instructions do, and the
  conversions of addresses to `unsigned int` drop their upper halves.
  Encodings follow the Intel 64 and IA-32
  Architectures Software Developer's Manual, volume 2 (CALL E8, ADD 05, MOV C7 /0, DEC 48+rd in
  32-bit mode, REX.W in 64-bit mode, RET C3).
* `unsigned long` and pointers of the boot loader and of SmallOS are 32 bits wide, little-endian.

## Where the source and its comments disagree

* `bench/common/rte_ring.h:344-347` says free_entries lies between 0 and size - 1, and
  `bench/common/rte_ring.h:579-582` says so of entries.  That holds for attempts whose
  compare-and-set succeeds; `RingStale.StaleRoomIff`, `RingStale.StaleEntriesIff` and the runs
  `RingStale.CommentFails` and `RingStale.EntriesCommentFails` treat the others.
* The documentation names two error codes for an enqueue; the code returns -1 for both, so -1 alone
  does not tell whether the objects were stored.
* `rte_ring_full` compares a masked index with an unmasked one; `RingObservers.FullTest` says when
  its answer is right.
* `tools/src/baremetal/smallos/scripts/parser.py` writes a merge group only when a section without the flag follows, and takes
  its sections for neighbours; `ImageExact.ImageRightIff` says exactly when the image is right.
* `bench/502.linearcode/src/main.c:112` speaks of a memory access; the emitted instruction loads an
  immediate.  In 32-bit mode the byte 48 in front of it is an instruction of its own that
  decrements EAX, so the accumulator advances by one less for each call.
* `spinlock_lock` reloads nothing before it retries; the value it swaps in is the one it swapped
  out, which is never zero (`SerialLock.FailKeepsInv`).

## Model

| member | source | states |
|---|---|---|
| `Words.SlotIndex` | bench/common/rte_ring.h:362-363 | `(head + i) & mask` names the slot of the unbounded counter, for every index, across the wrap at 2^32 |
| `Words.PowerOfTwoTestMeaning` | bench/common/rte_ring.c:86-87 | the bit test accepts exactly the ring sizes, and zero |
| `RingMachine.SlotOfCounter` | bench/common/rte_ring.h:362-363 | the slot an operation of the machine touches is the one of its counter |
| `RingSafety.RoomWord` | bench/common/rte_ring.h:344-348 | the 32-bit room computation is the wrapped difference of the unbounded counters |
| `RingSafety.UsedWord` | bench/common/rte_ring.h:367 | the watermark sum is prod_next - cons_tail + 1, and never wraps |
| `RingSafety.SlotsApart` | bench/common/rte_ring.h:362-363 | a reserved position never shares a slot with another reserved, published or claimed one |
| `RingSafety.TailTestExact` | bench/common/rte_ring.h:380-381 | the tail test, on wrapped words, passes exactly when the reservation starts at the tail |
| `RingSafety.ProdAtTail` | bench/common/rte_ring.h:376-383 | the owner of the first unpublished position starts exactly at the tail |
| `RingSafety.ConsAtTail` | bench/common/rte_ring.h:602-610 | the same for unfinished dequeues |
| `RingSafety.CopiedObject` | bench/common/rte_ring.h:598-600 | the slot a consumer copies holds the object of the position it claimed |
| `RingSafety.ReserveExact` | bench/common/rte_ring.h:356-359 | a compare-and-set that succeeds, however stale its reads, reserves the next n positions, and the room is exact |
| `RingSafety.ClaimExact` | bench/common/rte_ring.h:591-594 | a successful compare-and-set of a dequeue claims the next n published positions |
| `RingSafety.WriteIsLocal` | bench/common/rte_ring.h:361-363 | a slot write changes no slot of any other live position |
| `RingSafety.StepPReserve` | bench/common/rte_ring.h:356-359 | the reservation step keeps the whole invariant |
| `RingSafety.StepCReserve` | bench/common/rte_ring.h:591-594 | the claiming step keeps the whole invariant |
| `RingSafety.StepPWrite` | bench/common/rte_ring.h:361-363 | each slot write keeps the whole invariant |
| `RingSafety.StepCRead` | bench/common/rte_ring.h:597-600 | each slot read keeps the whole invariant |
| `RingSafety.StepPPublish` | bench/common/rte_ring.h:383-384 | the tail store of an enqueue keeps the whole invariant |
| `RingSafety.StepCPublish` | bench/common/rte_ring.h:610-611 | the tail store of a dequeue keeps the whole invariant |
| `RingSafety.StepKeepsInv` | bench/common/rte_ring.h:326-385 | every step of every thread, in any interleaving, keeps index order, tiling, slot contents and logs |
| `RingRuns.ReachableInv` | bench/common/rte_ring.h:326-385 | the invariant holds in every reachable state |
| `RingRuns.HistoryErased` | bench/common/rte_ring.h:326-385 | the history variables never decide what the machine does |
| `RingRuns.LogsAreTraffic` | bench/common/rte_ring.h:383-384 | the logs of the history are what the machine itself published and returned |
| `RingRuns.FifoExactlyOnce` | bench/common/rte_ring.h:341-384 | in every run, objects that leave at dequeue tail stores are a prefix of those that enter at enqueue tail stores, at most size - 1 behind |
| `RingReplies.CallsServed` | bench/common/rte_ring.h:326-385 | in every run each thread inside an enqueue works on the objects of its last call, inside a dequeue on its count |
| `RingReplies.FifoOfCalls` | bench/common/rte_ring.h:326-612 | what calls of dequeue hand out is a prefix of the arguments of the stored enqueues, at most size - 1 short; every reply fits its call |
| `RingReplies.FifoOfAnswers` | bench/common/rte_ring.h:326-612 | with the default watermark the same for the arguments of the enqueues that returned 0 |
| `RingRuns.StepRefines` | bench/common/rte_ring.h:356-384 | each step is an atomic put, an atomic take or invisible, on the queue history[cons.head .. prod.tail) |
| `RingRuns.RefinesAtomicFifo` | bench/common/rte_ring.h:326-612 | every run refines an atomic FIFO of size - 1 places, a put at the tail store and a take at the compare-and-set |
| `RingRuns.TraceIsTraffic` | bench/common/rte_ring.h:383-384 | the puts of the atomic trace are what the machine published, its takes begin with what the machine returned |
| `RingRuns.ReturnedIsTaken` | bench/common/rte_ring.h:591-612 | what a dequeue hands to its caller, with 0, is the last take of its thread in the atomic trace |
| `RingProperties.HoldersExact` | bench/common/rte_ring.h:356-383 | unpublished reservations tile [prod.tail, prod.head), unfinished claims [cons.tail, cons.head) |
| `RingProperties.ExclusiveSlots` | bench/common/rte_ring.h:362-363 | no two threads are inside one masked slot, and no thread holds one twice |
| `RingProperties.RefusalsRightIff` | bench/common/rte_ring.h:350-354 | refusals of all bulk counts are justified iff room plus the age of the head read, as a word, stays below 2^32, for any age |
| `RingProperties.EnqueueRefusal` | bench/common/rte_ring.h:342-354 | an enqueue is refused iff n exceeds the wrapped room; refusals are justified iff room and the age of the head read, as words, do not wrap |
| `RingProperties.DequeueRefusal` | bench/common/rte_ring.h:577-590 | the same for a dequeue and the published unclaimed objects |
| `RingProperties.StatusMeaning` | bench/common/rte_ring.h:366-374 | a stored bulk returns -1 iff prod_next - cons_tail reaches the watermark; no term wraps |
| `RingProperties.EnqueueReturn` | bench/common/rte_ring.h:350-385 | an enqueue returns -1 by refusing with nothing changed, or its watermark status with all objects appended; by default 0 iff stored |
| `RingProperties.StatusKept` | bench/common/rte_ring.h:366-384 | nothing touches the status between the watermark test and the return |
| `RingProperties.DequeueReturn` | bench/common/rte_ring.h:586-612 | a dequeue returns -1 and nothing by refusing, or 0 and the objects it copied; 0 iff it took them |
| `RingProperties.MarkSet` | bench/common/rte_ring.c:171-183 | counts from the size on change nothing, zero sets the mark to the size, others to themselves |
| `RingProperties.MarkDisabled` | bench/common/rte_ring.c:167-180 | with the mark at the size no stored bulk returns -1 |
| `RingProperties.DefaultKept` | bench/common/rte_ring.c:171-183 | the watermark stays at its default over every run that sets it to zero only |
| `RingStale.StaleRoomIff` | bench/common/rte_ring.h:344-348 | computed room exceeds size - 1 iff consumers, modulo 2^32, passed the head that was read and the sum does not wrap, and then the compare-and-set fails |
| `RingStale.StaleEntriesIff` | bench/common/rte_ring.h:579-583 | computed entries exceed size - 1 iff prod.tail was read a ring or more, modulo 2^32, behind the head, and then the compare-and-set fails |
| `RingStale.CommentFails` | bench/common/rte_ring.h:344-348 | a concrete run in which free_entries is size: the comment does not hold for attempts that fail |
| `RingStale.EntriesCommentFails` | bench/common/rte_ring.h:579-583 | a concrete run in which a dequeue sees two entries on a ring that holds one |
| `RingStale.RoundsRun` | bench/common/rte_ring.h:326-385 | k enqueue-dequeue rounds of one thread, for every k, with the indices at k mod 2^32 |
| `RingStale.RefusalFails` | bench/common/rte_ring.h:342-354 | after 2^32 - 1 such rounds an empty ring refuses an object to a thread that read its head before them |
| `RingStale.DistanceMatters` | bench/common/rte_ring.h:356-359 | a run of 2^32 - 1 rounds and an enqueue between a read and its compare-and-set, which then succeeds on a full ring |
| `RingStale.ReserveSafeIff` | bench/common/rte_ring.h:356-359 | in every state of the invariant a compare-and-set of an enqueue keeps it iff the distance to its head read is no positive multiple of 2^32 |
| `RingStale.ClaimSafeIff` | bench/common/rte_ring.h:591-594 | the same for a dequeue |
| `RingStale.LateReserve` | bench/common/rte_ring.h:356-359 | a compare-and-set such a multiple late succeeds, and keeps the index order iff the bulk happens to fit |
| `RingStale.StepSafeIff` | bench/common/rte_ring.h:326-612 | given valid calls, the steps that keep the invariant are exactly those a run is allowed to take |
| `RingStale.FullTestMisses` | bench/common/rte_ring.h:765-771 | a reached full ring that is called not full |
| `RingStale.CountMisses` | bench/common/rte_ring.h:798-803 | a reached count of one on a ring that is empty at both reads |
| `RingProgress.LeaderReady` | bench/common/rte_ring.h:376-383 | whenever somebody waits, the reservation at the tail has an owner, and its next step is no spin |
| `RingProgress.LeaderAlone` | bench/common/rte_ring.h:376-383 | that owner is the only one starting at the tail |
| `RingProgress.LeaderSteps` | bench/common/rte_ring.h:361-384 | each step of it uses up work it has left |
| `RingProgress.RankFalls` | bench/common/rte_ring.h:376-383 | no step of anyone lengthens the wait, each step of the leader shortens it |
| `RingProgress.WaitEnds` | bench/common/rte_ring.h:376-383 | a blocked thread is let through within as many fair windows as its rank says |
| `RingCalls.ReserveFailsIff` | bench/common/rte_ring.h:356-359 | a compare-and-set of an enqueue fails iff another reservation succeeded since the head was read |
| `RingCalls.ClaimFailsIff` | bench/common/rte_ring.h:591-594 | the same for a dequeue |
| `RingCalls.StepLowers` | bench/common/rte_ring.h:326-385 | every step inside a call lowers one measure of all calls, but for a failing tail test, which changes nothing |
| `RingCalls.SomeoneMoves` | bench/common/rte_ring.h:376-383 | while a call is in progress some call has a step that is no failing tail test |
| `RingCalls.CallsArePaid` | bench/common/rte_ring.h:326-612 | in fair windows, the windows with calls in progress are bounded by the measure and a price per new call |
| `RingCalls.EachCallIsBounded` | bench/common/rte_ring.h:326-612 | from creation, at most size + 4 threads + 11 busy windows for each call that is started |
| `RingCalls.AllReturn` | bench/common/rte_ring.h:326-612 | when no more calls are started, every call in progress returns |
| `RingObservers.ObserversExact` | bench/common/rte_ring.h:782-820 | count, free count and emptiness are exact on wrapped indices; count + free_count = size - 1 |
| `RingObservers.CountIsMod` | bench/common/rte_ring.h:798-803 | for any two counters the count is their difference modulo the size |
| `RingObservers.FreeCountIsMod` | bench/common/rte_ring.h:814-819 | for any two counters the free count is the distance back from the producers, modulo the size |
| `RingObservers.FullTest` | bench/common/rte_ring.h:765-771 | rte_ring_full answers yes iff no slot is free and cons.tail is below the size |
| `RingMotion.CountInMotion` | bench/common/rte_ring.h:798-803 | with any steps between its two reads, the count is exact for the two tails modulo the size, and plainly iff consumers have not passed the tail that was read |
| `RingMotion.FreeCountInMotion` | bench/common/rte_ring.h:814-819 | the same for the free count |
| `RingMotion.EmptyInMotion` | bench/common/rte_ring.h:782-787 | the empty test in motion: yes iff consumers have reached exactly the tail that was read, modulo 2^32 |
| `RingObject.QueuePut` | bench/common/rte_ring.h:431-432 | a store at the next counter appends to the queue and touches nothing else of it |
| `RingObject.QueueSplit` | bench/common/rte_ring.h:656-658 | the first n objects of the queue, and the queue without them |
| `RingObject.Ring.Fresh` | bench/common/rte_ring.c:150-161 | a fresh ring is empty, with the default watermark |
| `RingObject.Ring.Create` | bench/common/rte_ring.c:101-165 | no ring iff the count is neither zero nor a power of two; a valid empty ring iff it is not zero |
| `RingObject.Ring.SetWaterMark` | bench/common/rte_ring.c:171-183 | counts from the size on are refused, zero disables, the queue is not touched |
| `RingObject.Ring.SpEnqueueBulk` | bench/common/rte_ring.h:403-447 | all objects go behind the queue or none do; -1 means refused, or stored with at least watermark objects held |
| `RingObject.Ring.CopyIn` | bench/common/rte_ring.h:431-432 | the copy loop appends exactly the bulk |
| `RingObject.Ring.ScDequeueBulk` | bench/common/rte_ring.h:629-663 | the n oldest objects move to the front of the table, or nothing changes |
| `RingObject.Ring.CopyOut` | bench/common/rte_ring.h:656-658 | the copy loop reads the oldest objects in order |
| `RingObject.Ring.Count` | bench/common/rte_ring.h:798-803 | the number of objects in the queue |
| `RingObject.Ring.FreeCount` | bench/common/rte_ring.h:814-819 | the places left |
| `RingObject.Ring.IsEmpty` | bench/common/rte_ring.h:782-787 | yes iff the queue is empty |
| `RingObject.Ring.IsFull` | bench/common/rte_ring.h:765-771 | yes iff the queue is full and cons.tail is below the size |
| `SlotsInvariant.RingsSmall` | bench/503.slots/src/main.c:100-193 | app1 and app2 never hold more than two messages, out1 and out2 never more than one |
| `SlotsInvariant.Barrier` | bench/503.slots/src/main.c:105-175 | a complete scan means both io threads have sent their round and wait |
| `SlotsInvariant.ScanTakes` | bench/503.slots/src/main.c:105-175 | positions 1 and 3 draw from app1, 2 and 4 from app2, each once a round, the oldest message first |
| `SlotsInvariant.IoTakes` | bench/503.slots/src/main.c:265-268 | each io thread draws from its own ring |
| `SlotsInvariant.StoreKeepsInv` | bench/503.slots/src/main.c:213 | overwriting the shared static pointer never takes a fresh pointer from the other io thread |
| `SlotsInvariant.StepKeepsInv` | bench/503.slots/src/main.c:72-286 | every step of the three threads keeps the lock-step invariant |
| `SlotsRuns.Run` | bench/503.slots/src/main.c:72-286 | every run, in every interleaving, keeps the invariant |
| `SlotsRuns.TestedPayload` | bench/503.slots/src/main.c:267-278 | in every interleaving the payload tested after the k-th receive is k |
| `SlotsRuns.ReturnsAfterN` | bench/503.slots/src/main.c:277-278 | an io thread has returned iff it received N messages |
| `SlotsRuns.LockStep` | bench/503.slots/src/main.c:100-193 | threads stay within a round of each other and rings far from full |
| `SlotsRuns.EnqueuesSucceed` | bench/503.slots/src/main.c:189-192 | no enqueue whose result is ignored ever fails |
| `SlotsRuns.SomeoneCan` | bench/503.slots/src/main.c:240-283 | until all have returned some thread can make progress: no deadlock |
| `SlotsRuns.StepLowers` | bench/503.slots/src/main.c:105-175 | no step raises the measure and each productive step lowers it |
| `SlotsRuns.FairRunsEnd` | bench/503.slots/src/main.c:72-286 | within 125 N + 4 fair windows all three threads have returned |
| `Congruential.LcgIsOrbit` | bench/502.linearcode/src/main.c:86 | reducing modulo N at each step or once at the end is the same |
| `Congruential.Coefficients` | bench/502.linearcode/src/main.c:86 | 2^k steps add an odd multiple of 2^k, up to a multiple of 2^(k+2) of the start |
| `Congruential.BlockShift` | bench/502.linearcode/src/main.c:86 | 2^k steps shift a value by 2^k modulo 2^(k+1) |
| `Congruential.NoEarlyReturn` | bench/502.linearcode/src/main.c:86 | fewer than 2^k steps never return to the same value |
| `Congruential.WindowValues` | bench/502.linearcode/src/main.c:65-87 | no value repeats within N steps |
| `Congruential.FullPeriod` | bench/502.linearcode/src/main.c:65-87 | N = 2^k with k >= 2, A = 1 mod 4, B odd: each slot comes up exactly once in any N consecutive calls |
| `Congruential.Missing` | bench/502.linearcode/src/main.c:65-87 | without these conditions some slot never comes up |
| `Congruential.FullPeriodIff` | bench/502.linearcode/src/main.c:65-87 | each slot comes up exactly once in every N consecutive calls iff A = 1 mod 4 and B is odd |
| `Congruential.EvenUse` | bench/502.linearcode/src/main.c:65-87 | m full periods use each slot exactly m times |
| `Congruential.MainUse` | bench/502.linearcode/src/main.c:118 | with the arguments of main each of 8192 values occurs exactly 128 times |
| `X86.WordLoaded` | bench/502.linearcode/src/main.c:76 | a stored displacement reads back as the word that was stored |
| `LinearCode.TargetIsLcg` | bench/502.linearcode/src/main.c:67-86 | in wrapping int arithmetic the targets are the congruential sequence whenever nothing is negative or overflows |
| `LinearCode.FirstTargets` | bench/502.linearcode/src/main.c:118 | the first two calls of main go to functions 509 and 5638 |
| `LinearCode.RemainderMeaning` | bench/502.linearcode/src/main.c:86 | the remainder of a truncated quotient: smaller than N, with the sign of the left operand |
| `LinearCode.StoreWord` | bench/502.linearcode/src/main.c:76 | the four bytes of a word, little-endian, and no other byte |
| `LinearCode.EmitBlock` | bench/502.linearcode/src/main.c:71-81 | the ten bytes of a call and an addition |
| `LinearCode.BuildCalls` | bench/502.linearcode/src/main.c:65-90 | exactly the bytes of the program, and nothing behind them, for all int arguments with defined divisions |
| `LinearCode.EmitFunction` | bench/502.linearcode/src/main.c:110-112 | the template with its immediate patched |
| `LinearCode.FillFunctions` | bench/502.linearcode/src/main.c:108-113 | every function of the table, each with its own data address |
| `LinearCodeRun.LandingExact` | bench/502.linearcode/src/main.c:76 | in 32-bit mode each call lands on its function; in 64-bit mode iff the distance fits 32 signed bits |
| `LinearCodeRun.FunctionRuns` | bench/502.linearcode/src/main.c:55-58 | a function sets its data register and returns; in 32-bit mode the 48 byte decrements EAX first |
| `LinearCodeRun.DataAddress` | bench/502.linearcode/src/main.c:113 | the data register is the address of eight bytes for each function, below 2^31 |
| `LinearCodeRun.BlockRuns` | bench/502.linearcode/src/main.c:71-81 | a block calls its function once and arrives at the next block |
| `LinearCodeRun.ProgramRuns` | bench/502.linearcode/src/main.c:65-90 | the program makes exactly len calls, the i-th to functions + 64 C_i, advances EAX by the len additions mod 2^32 and returns with the stack balanced |
| `LinearCodeRun.TargetsAt` | bench/502.linearcode/src/main.c:65-87 | the i-th call of the program goes to functions + 64 C_i |
| `LinearCodeRun.PlainArguments` | bench/502.linearcode/src/main.c:118 | arguments without sign and overflow keep all targets in the table |
| `LinearCodeRun.Generate` | bench/502.linearcode/src/main.c:108-118 | the arrays main fills run as meant wherever they lie in the address space, within reach in 64-bit mode |
| `LinearCodeRun.CallsOf` | bench/502.linearcode/src/main.c:65-87 | how often a function is called is how often the sequence hits its slot |
| `LinearCodeRun.MainCallsEvenly` | bench/502.linearcode/src/main.c:118 | the program of main calls each of its functions 128 times |
| `Transcript.PlainText` | tools/src/baremetal/smallos/src_c/video.c:115-119 | text without newlines fills the page cell by cell, each character below the attribute |
| `Transcript.GlyphBytes` | tools/src/baremetal/smallos/src_c/video.c:117 | the character is the low byte of its cell, the attribute the high one |
| `Transcript.CellsCount` | tools/src/baremetal/smallos/src_c/video.c:109-119 | each character that is not a newline has a cell of its own |
| `Transcript.AfterNewline` | tools/src/baremetal/smallos/src_c/video.c:218-234 | text behind a newline is printed as on a fresh page, from the next row on |
| `Transcript.ScreenStep` | tools/src/baremetal/smallos/src_c/video.c:99-124 | one more character on the page writes one cell of the 25 rows shown, and scrolls them when the page moves on |
| `Console.VgaConsole.MoveCursor` | tools/src/baremetal/smallos/src_c/video.c:60-69 | positions off the screen fall back to zero, and the cursor registers show the position |
| `Console.VgaConsole.Scroll` | tools/src/baremetal/smallos/src_c/video.c:74-97 | the ascending copy in place is a shift by one row, and the last row is 0x0F20 |
| `Console.VgaConsole.Clear` | tools/src/baremetal/smallos/src_c/video.c:126-144 | all cells 0x002F, position and cursor at the origin |
| `Console.VgaConsole.UpdatePos` | tools/src/baremetal/smallos/src_c/video.c:216-259 | the next position, a scroll exactly when the last row is left, and when the hardware cursor follows |
| `Console.VgaConsole.PutChar` | tools/src/baremetal/smallos/src_c/video.c:99-124 | the 2000 cells and the position stay those of the last 25 rows of the page; byte by byte, the written cell, the other cells, the scroll and the new position; the hardware cursor shows the position iff the character did not fill the last column |
| `Console.VgaConsole.PrintStr` | tools/src/baremetal/smallos/src_c/utilities.c:333-340 | the characters up to the zero, and no more, are printed, and whether the hardware cursor shows the position |
| `ImageText.LineBack` | tools/src/baremetal/smallos/linux_boot/bootloader.c:153-170 | a printed field reads back as its byte, a blank one as zero |
| `ImageText.LineLetters` | tools/src/baremetal/smallos/scripts/parser.py:105-109 | each byte is two upper-case digits, at its column |
| `ImageText.OriginLetters` | tools/src/baremetal/smallos/scripts/parser.py:84-95 | an origin line is the word, a blank and eight lower-case digits |
| `ImageText.NearlyOrigin` | tools/src/baremetal/smallos/linux_boot/bootloader.c:114-115 | two lines that differ from an origin in one character are none |
| `ImageText.LineIsNotOrigin` | tools/src/baremetal/smallos/linux_boot/bootloader.c:114-115 | no data line is taken for an origin line |
| `ImageText.OriginBack` | tools/src/baremetal/smallos/scripts/parser.py:84-95 | a printed origin reads back as its address |
| `ImageWriter.GetHeader` | tools/src/baremetal/smallos/scripts/parser.py:79-99 | one origin for up to 256 lines, else one for each started page |
| `ImageWriter.RestIsText` | tools/src/baremetal/smallos/scripts/parser.py:152-162 | writing header by header puts each origin in front of its own page of lines |
| `ImageWriter.Binary.ToFile` | tools/src/baremetal/smallos/scripts/parser.py:148-163 | the text of a segment is appended |
| `ImageWriter.Binary.Process` | tools/src/baremetal/smallos/scripts/parser.py:132-146 | the file holds the text of the pieces: merge groups combined, each in front of the section that ends it |
| `ImageLoader.PokeAt` | tools/src/baremetal/smallos/linux_boot/bootloader.c:174-176 | a store changes exactly the bytes it covers |
| `ImageLoader.WordOf` | tools/src/baremetal/smallos/linux_boot/bootloader.c:156-171 | the word of four fields, first field lowest |
| `ImageLoader.Loader.StoreWord` | tools/src/baremetal/smallos/linux_boot/bootloader.c:174-176 | four bytes at the write pointer, if they lie in the mapped page |
| `ImageLoader.Loader.StoreLine` | tools/src/baremetal/smallos/linux_boot/bootloader.c:153-178 | the sixteen fields of a line go to memory in order |
| `ImageLoader.Loader.Load` | tools/src/baremetal/smallos/linux_boot/bootloader.c:112-180 | the loop does what the line-by-line meaning of the file says, including where it faults |
| `ImageRoundTrip.LoadData` | tools/src/baremetal/smallos/linux_boot/bootloader.c:151-179 | lines of data load iff they stay in the mapped page |
| `ImageRoundTrip.SegmentBack` | tools/src/baremetal/smallos/scripts/parser.py:148-163 | the text of a segment loads iff it starts a page or stays in one when padded, and stores its bytes, zero-padded |
| `ImageRoundTrip.TextBack` | tools/src/baremetal/smallos/scripts/parser.py:132-163 | a list of segments loads iff each of them fits |
| `ImageRoundTrip.PlacedAt` | tools/src/baremetal/smallos/linux_boot/bootloader.c:174-176 | with ascending disjoint segments, padding never survives on a byte of a segment |
| `ImageRoundTrip.CombineIff` | tools/src/baremetal/smallos/scripts/parser.py:116-130 | a combined piece holds all its sections at their places iff each follows the one before it in memory and in the file |
| `ImageSections.EveryCovered` | tools/src/baremetal/smallos/scripts/parser.py:132-146 | with contiguous and closed merge groups every allocated section lies in a piece that is written |
| `ImageSections.CoveredMeansLaid` | tools/src/baremetal/smallos/scripts/parser.py:132-146 | if every allocated section lies in a piece, merge groups are contiguous and closed |
| `ImageSections.CoveredIff` | tools/src/baremetal/smallos/scripts/parser.py:116-146 | every allocated section lies at its place in a written piece iff merge groups are contiguous and each is followed by a section without the flag |
| `ImageSections.FitsBySize` | tools/src/baremetal/smallos/scripts/parser.py:105-111 | with such a layout each piece is read whole from the file |
| `ImageSections.PiecesWithin` | tools/src/baremetal/smallos/scripts/parser.py:132-146 | pieces ascend and stay within the bounds of their sections, however these are laid out |
| `ImageSections.SectionsRoundTrip` | tools/src/baremetal/smallos/scripts/parser.py:116-163 | loading the written image succeeds iff every piece fits, and with contiguous and closed merge groups every byte of every section is then at its address |
| `ImageSections.OutsideKept` | tools/src/baremetal/smallos/linux_boot/bootloader.c:174-176 | memory outside the padded pieces is untouched |
| `ImageSections.TrailingMergeLost` | tools/src/baremetal/smallos/scripts/parser.py:132-146 | merge sections with no other section behind them lie in no piece, and no piece reaches them |
| `ImageExact.InPlaceMeansCovered` | tools/src/baremetal/smallos/linux_boot/bootloader.c:112-180 | two kernel files tell whether a section is held at its place by one piece |
| `ImageExact.ImageRightIff` | tools/src/baremetal/smallos/scripts/parser.py:116-163 | what is loaded is right for every kernel file of a layout iff merge groups are contiguous and closed |
| `ImageExact.TrailingExample` | tools/src/baremetal/smallos/scripts/parser.py:132-146 | a section table whose last merge section is missing from memory |
| `ImageExact.GapExample` | tools/src/baremetal/smallos/scripts/parser.py:116-130 | a section table with a gap in a merge group, loaded wrong |
| `Numbers.DigitsMeaning` | tools/src/baremetal/smallos/src_c/utilities.c:189-196 | the digits stand for the number, and have no leading zero |
| `Numbers.DigitsLetters` | tools/src/baremetal/smallos/src_c/utilities.c:194 | digits above nine are lower-case letters |
| `Numbers.MagnitudeMeaning` | tools/src/baremetal/smallos/src_c/utilities.c:173-187 | the magnitude of negative decimals, the lowest included, and the word otherwise |
| `Numbers.AtoiNegates` | tools/src/baremetal/smallos/src_c/utilities.c:292-296 | a minus sign in front negates |
| `Numbers.AtoiSkipsPlus` | tools/src/baremetal/smallos/src_c/utilities.c:292-300 | a plus sign behind the minus sign is skipped |
| `Numbers.AtoiSkipsPrefix` | tools/src/baremetal/smallos/src_c/utilities.c:288-291 | 0x or 0X in front is skipped |
| `Numbers.StrLen` | tools/src/baremetal/smallos/src_c/utilities.c:208-217 | the length up to the first zero |
| `Numbers.StrRev` | tools/src/baremetal/smallos/src_c/utilities.c:247-266 | the string reversed, terminated, and no other byte of the destination changed |
| `Numbers.PutDigits` | tools/src/baremetal/smallos/src_c/utilities.c:189-196 | the division loop leaves the digits last one first |
| `Numbers.Itoa` | tools/src/baremetal/smallos/src_c/utilities.c:169-202 | the digits, terminated; a negative decimal starts one byte later and ends in its sign |
| `Numbers.ConvertFrom` | tools/src/baremetal/smallos/src_c/utilities.c:302-327 | the digit loop, modulo 2^32, with a stale digit value for other characters |
| `Numbers.Atoi` | tools/src/baremetal/smallos/src_c/utilities.c:273-330 | prefixes skipped, then the conversion of what is left |
| `Numbers.ItoaLeavesText` | tools/src/baremetal/smallos/src_c/utilities.c:199-201 | what itoa leaves in its buffer is a terminated string, the text it prints |
| `Numbers.AtoiUndoesItoa` | tools/src/baremetal/smallos/src_c/utilities.c:169-330 | atoi reads back, from the buffer itoa left, every value itoa prints without a sign |
| `Numbers.PrintAndRead` | tools/src/baremetal/smallos/src_c/utilities.c:169-330 | itoa and then atoi on one buffer return the number |
| `Numbers.ReadsBackIff` | tools/src/baremetal/smallos/src_c/utilities.c:169-330 | whatever the buffer held, atoi reads back what itoa left iff the number is printed without a sign |
| `Numbers.NegativeFails` | tools/src/baremetal/smallos/src_c/utilities.c:180-185 | a buffer from which no negative decimal is read back |
| `Numbers.MinusOneFails` | tools/src/baremetal/smallos/src_c/utilities.c:180-185 | minus one in decimal is read back from no buffer |
| `Serial.Port.PutChar` | tools/src/baremetal/smallos/src_c/serial.c:82-87 | a line feed is preceded by a carriage return |
| `Serial.Port.PrintStr` | tools/src/baremetal/smallos/src_c/serial.c:89-98 | the characters up to the zero |
| `Serial.Port.PrintHex` | tools/src/baremetal/smallos/src_c/serial.c:100-137 | the same digits as itoa, for every word |
| `Serial.LastFirst` | tools/src/baremetal/smallos/src_c/serial.c:148-157 | the first loop leaves the digits last one first |
| `Serial.Mirrored` | tools/src/baremetal/smallos/src_c/serial.c:159-165 | the second loop reverses them |
| `Serial.Port.PrintDec` | tools/src/baremetal/smallos/src_c/serial.c:139-167 | the same digits as itoa below 2^31, nothing from there on |
| `Serial.Port.PrintArg` | tools/src/baremetal/smallos/src_c/serial.c:280-300 | one conversion consumes its argument and prints it |
| `Serial.Port.Printf` | tools/src/baremetal/smallos/src_c/serial.c:260-306 | the format, with its arguments in order |
| `Serial.CookedAt` | tools/src/baremetal/smallos/src_c/serial.c:82-87 | every character stands in its place, each line feed with a carriage return directly before it |
| `Serial.PlainFormat` | tools/src/baremetal/smallos/src_c/serial.c:272-277 | a format without conversions comes out as it stands |
| `Serial.HexInFormat` | tools/src/baremetal/smallos/src_c/serial.c:286-290 | %x prints the hexadecimal digits of its argument, behind the characters in front |
| `Serial.DecimalInFormat` | tools/src/baremetal/smallos/src_c/serial.c:281-285 | %d prints the decimal digits below 2^31, nothing from there on |
| `Serial.CharacterInFormat` | tools/src/baremetal/smallos/src_c/serial.c:291-295 | %c prints its character |
| `Serial.TextInFormat` | tools/src/baremetal/smallos/src_c/serial.c:296-300 | %s prints its string up to the zero |
| `Serial.OtherInFormat` | tools/src/baremetal/smallos/src_c/serial.c:278-302 | other letters print nothing and use no argument |
| `Serial.TrailingPercent` | tools/src/baremetal/smallos/src_c/serial.c:278-303 | a percent sign at the end leads behind the format |
| `SerialLock.PrintAlone` | tools/src/baremetal/smallos/src_c/serial.c:260-306 | what one caller sends is the message of its format and arguments |
| `SerialLock.FailKeepsInv` | tools/src/baremetal/smallos/src_c/spinlock.c:47-59 | a failing exchange leaves the lock taken and eax nonzero for every retry |
| `SerialLock.StepKeepsInv` | tools/src/baremetal/smallos/src_c/spinlock.c:47-66 | every step of every thread keeps the lock held by its one holder |
| `SerialLock.EveryCallAnswered` | tools/src/baremetal/smallos/src_c/spinlock.c:47-59 | each call has got the lock, or waits for it, as often as it was made |
| `SerialLock.AllPrinted` | tools/src/baremetal/smallos/src_c/serial.c:260-306 | when all threads are away the port has received the messages of all calls that were made, each once |
| `SerialLock.WholeMessages` | tools/src/baremetal/smallos/src_c/serial.c:260-306 | in every run of calls the output is what serial_printf sends for each of them, whole, in lock order, and a beginning for the current one |

## Left out

- Weak memory: fences and store buffers are not modelled; the assumption above replaces them.
- Ring names, debug statistics, the list of rings, `malloc`, the fixed-address allocator of the bare-metal build; the single-object wrappers of the bulk operations.
- Liveness of a single call among infinitely many: a thread can lose its compare-and-set to others for ever.  RingCalls bounds the windows per call, so finitely many calls all return.
- A composition of benchmark 503 with the ring machine: its rings are atomic queues, and its termination counts an enqueue or dequeue as one step.
- Thread creation and pinning, time stamps, printed measurements; the 501 motion-control benchmark and its floating-point numbers.
- LinearCode.BuildCalls: a division by zero or of the most negative int by -1 is excluded, because the program stops there.
- LinearCode.TargetIndex: int overflow is taken to wrap; the C standard leaves it undefined.
- X86: flags, memory data and the other registers are not modelled; the stack is a list of return addresses.
- The bare-metal build of 503, in which the three threads are separate images with static variables of their own.
- Console.VgaConsole.constructor: the memory of the screen before the first vga_clear is arbitrary and nothing is promised about it.
- vga_init, palette and port numbers; of the port output only the cursor location registers are kept.
- readelf and hexdump as programs: a section header is a record and a section's bytes a slice of the file.
- Sections without contents in the file, other than as the slice hexdump would print for them.
- Signs and 0x prefixes in strtol and strtoul, and the unterminated two- and eight-character buffers they are given.
- ImageLoader.Loader.Load: a data line too short for sixteen fields counts as a fault, because the source would read what the line buffer held before.
- Mapping /dev/mem, the key press before each origin, start-up of the other processors.
- ImageSections.CoveredIff: sections of size zero, which hold no byte but can be the first of a merge group.
- Numbers.AtoiUndoesItoa: negative decimals, whose sign itoa puts behind the digits and whose first byte it leaves unwritten; Numbers.ReadsBackIff shows that these are exactly the ones that fail.
- Numbers.Itoa: buffers too small for the digits, which the source leaves to its caller.
- Format conversions other than d, x, c and s print nothing, as in the source; a format that ends in a percent sign makes the source read on behind it, and is excluded.
- spinlock_trylock, which nothing calls, and the console printer, which has field widths.
- Interrupts, timers, ACPI and MP tables, segment and page tables, PCI, keyboard.
