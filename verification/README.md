# Verified models of a vhost-user test bench

This project models, in Dafny 4.11, the logic of a set of virtualisation experiments and proves
what that logic guarantees. It covers two protocols and four smaller algorithms.

* **The transmit queue of the hand-written vhost-user backend** (`code_dump/bkend/bkend.c`).
  `Words`, `Regions`, `Chains`, `TxRing`, `TxRingSafety`, `TxRingRuns`, `TxRingProgress`,
  `TxReload`, `TxReloadEffects`, `TxReloadRun`, `TxTwoThreads`, `TxThread`, `Backend`. A driver and
  the dequeue thread take atomic steps on a shared split
  virtqueue with 16-bit indices (section 2.6 of VirtIO 1.1). The driver is arbitrary: it may
  rewrite anything it has not handed out, expose any chain of free descriptors, good or bad, and
  take used elements back by the id it reads. The thread has a program point for every access the others can
  interfere with, including every descriptor of a chain walk. Main results: at every point of every run the ids
  read back and the frames received are those of the chains made available, in order and without
  gaps, across index wrap; the ring never overflows, which is derived from the descriptors being
  finite and not assumed; the queue read off the rings refines a first-in first-out queue, step by
  step and with what each step shows; the batch loop ends however fast the driver adds; on every
  fair infinite run each chain is published or the thread has stopped on a chain the walk rejects; a
  new backend process replays exactly what was unpublished; and the exact condition under which the
  ring-address message makes a running thread go on at the first unpublished entry.
  `TxThread.DequeueThread` is the same thread as nested loops over mutable fields, with the driver
  taking any number of turns between its accesses.
* **The receive side of that backend** (`RxScatter`): scattering a frame over mergeable buffers
  (section 5.1.6.4 of VirtIO 1.1) and gathering it again is the identity.
* **The producer/ring/consumer pipeline** (`vtb/src/vhost_controller.cpp`): `Pipeline`,
  `PipelineSafety`, `PipelineRuns`, `PipelineDevice`, `PipelineShutdown`, `ConsumerThread`. Two threads, a bounded
  ring with burst operations, retries with a cap, a quit flag and a drain. Main results: one owner
  for every buffer and no double free, delivery in order, exact accounting, and termination of
  both threads on every fair run after quit.
* **The asynchronous logger** (`Logger`, `LoggerThread`), **the address odometer and the VM
  launcher** (`Odometer`, `VmLaunch`), **the command-line parser** (`Cmdline`) and **the
  queue-state table** (`QueueTable`).

Runs are sequences of states joined by moves; infinite runs are functions from time to states.
Each state carries a record of what happened (entries sent, frames received, buffers freed, lines
accepted). No step reads it.

`dafny verify dfyconfig.toml` checks everything.

## Where the code falls short of what it is for

* **Ring addresses on a running queue.** The message reloads both indices from the used ring in two
  stores and does not stop the dequeue thread. What the reload is for is stated on the rings
  (`TxReload.ResumesExactly`): the thread goes on exactly at the first unpublished entry, in that
  entry's own slot, with both indices level and what is published in order.
  `TxReload.ReloadIsExact` says when that is so, at the second store: the thread's used index is
  published, and either the store changes nothing, or no entry is in hand and the thread has read the
  used index for no entry since the first store. Otherwise:
  * on an entry whose slot is picked, the first unpublished entry is not replayed and the one in hand
    is received twice, for every continuation; the ids stay in order
    (`TxReloadEffects.ReloadInsideEntrySkips`);
  * just before the slot is picked, the entry in hand gets the slot of another
    (`TxReloadEffects.ReloadBeforeSlot`);
  * between the increments, the indices part (`TxReloadEffects.ReloadBetweenIncrements`); with both
    increments between the stores the driver, which made one chain available, reads its id twice
    (`TxReloadRun.ReloadReturnsChainTwice`);
  * with no entry in hand at either store but one served between them, ids come back out of order
    (`TxReloadRun.EntryBetweenStoresMisplaced`), and no second store mends that
    (`TxReload.SecondStoreWrong`).
* **A second dequeue thread.** Every enabling message of queue 1 after the first starts one. Two of
  them receive one chain twice and move the available index past the driver's
  (`TxTwoThreads.TwoThreadsServeTwice`).
* **Losslessness.** The controller's header calls both directions lossless.
  `PipelineShutdown.RefusedPacketIsLost` is a run that loses a packet after 1000 refused attempts;
  `PipelineRuns.DroppedIffGaveUp` says that packets are dropped exactly in runs with such a step.
* **The byte counter** of the consumer also counts dropped packets: 60 instead of 0 at the end of the
  same run. `PipelineRuns.FinalAccounts` says exactly when it is right.
* **The final drain** is meant to leave no buffer behind. It can leave up to one burst:
  `PipelineShutdown.DrainCanMissAPacket` is a run that does, and
  `PipelineRuns.ResidueIsLateProduction` says exactly what is left.
* **Help.** `prog -- --help -p 0x1` parses and leaves help off (`Cmdline.BareHelpStaysOff`);
  `Cmdline.HelpNeedsAValue` says exactly when it is on.
* **The length test** in front of the copy wraps at 32 bits: after 100 bytes a descriptor of 2^32 - 100
  passes it (`Chains.TwoDescriptorsOverrun`, exact in `Chains.OverrunIsWrap`).
* **Receive buffers.** The loop tests for one available head and takes three. With one head the frame
  goes into two buffers that were not offered (`RxScatter.OneHeadOvertakes`);
  `RxScatter.ThreeHeadsExactly` says which of the three come from slots filled since they were taken.
* **The address counter** does not carry like a number once its parent byte has moved
  (`Odometer.MacIsBasePlusN`); the generated table of 1024 entries stays inside the good range.

## Preconditions the backend relies on

* The ring size is a power of two up to 32768 (`Words.RingSize`; exactness in
  `Words.SlotContinuityIsExact` and `Words.RingSizesArePowersOfTwo`).
* The transmit thread reads the size of queue 0 while it serves queue 1, so both must agree
  (`Words.SharedSizeIsExact`).
* Chains end and stay inside the descriptor table, and outstanding chains are disjoint and left alone:
  these are the driver's duties in sections 2.6.5 and 2.6.6 of VirtIO 1.1 and appear as the guards of
  the driver's moves.
* The ring addresses do not change while the dequeue thread runs: it keeps three pointers from its
  start. The results on reloads are about a message that names the same rings again.
* One dequeue thread serves the queue (`TxTwoThreads.TwoThreadsServeTwice` has two).
* The bytes copied so far plus the length of the next descriptor stay below 2^32
  (`Chains.LengthGuardIsExact`).
* Regions of a memory-table message and their mappings are disjoint and end below 2^64
  (`Backend.ProperMessage`).
* Receive: three heads are available, unchained and writable, and the first buffer has room for the
  metadata (`RxScatter.ThreeHeadsExactly`, `RxScatter.FirstChunkFitsExactly`).

## Model

| member | source | states |
|---|---|---|
| Words.SlotOfWrapped | code_dump/bkend/bkend.c:825-827 | the slot computed from a 16-bit index is the slot of the unwrapped counter when the size divides 2^16 |
| Words.SlotContinuityIsExact | code_dump/bkend/bkend.c:825-827 | index modulo size is continuous across 16-bit wrap exactly when the size divides 2^16 |
| Words.RingSizesArePowersOfTwo | code_dump/bkend/bkend.c:525-530 | the admissible sizes are exactly the powers of two up to 2^15 |
| Words.WrapDecidesEquality | code_dump/bkend/bkend.c:818-820 | the 16-bit equality test decides emptiness for counters less than 2^16 apart |
| Words.SharedSizeIsExact | code_dump/bkend/bkend.c:806 | using another queue's size addresses the right slots exactly when the sizes are equal |
| Regions.CoverIsExact | code_dump/bkend/bkend.c:663 | the test with a 64-bit region end is containment exactly for regions that end below 2^64 |
| Regions.FirstMatchWins | code_dump/bkend/bkend.c:659-669 | on any table the first region whose range test succeeds gives the answer, its mapping plus file offset plus the offset in the region, in 64 bits |
| Regions.TranslateByRegion | code_dump/bkend/bkend.c:659-669 | on a table of disjoint regions the first match is the region that contains the address, and the answer is its mapping plus the offset |
| Regions.TranslateFails | code_dump/bkend/bkend.c:666-668 | the scan fails exactly when no region contains the address |
| Regions.TranslateOrderIndependent | code_dump/bkend/bkend.c:376-386 | any reordering of the table gives the same answers |
| Regions.TranslateInjective | code_dump/bkend/bkend.c:659-669 | no two addresses of one space share a host address |
| Regions.TranslateContiguous | code_dump/bkend/bkend.c:659-669 | a range inside a region translates to a range inside that region's mapping, byte by byte |
| Regions.SpacesAgree | code_dump/bkend/bkend.c:376-386 | the guest-physical and the QEMU-virtual address of one byte translate to one host address |
| Chains.LengthGuardIsExact | code_dump/bkend/bkend.c:838 | the 32-bit length test means what it says exactly when the sum stays below 2^32 |
| Chains.OverrunIsWrap | code_dump/bkend/bkend.c:838-839 | the copy runs over the buffer exactly when the 32-bit sum wraps to a length below MAX_LEN |
| Chains.TwoDescriptorsOverrun | code_dump/bkend/bkend.c:838-839 | two descriptors that make it do so |
| Chains.ReassembleMeaning | code_dump/bkend/bkend.c:830-855 | a chain is accepted exactly when all buffers are mapped and readable and the true total is positive and below MAX_LEN; the frame is then the buffers in chain order |
| Chains.FrameBytes | code_dump/bkend/bkend.c:833-844 | byte i of the k-th buffer of an accepted chain, as guest memory has it at its translated address, stands in the frame after all bytes of the buffers before it |
| Chains.FirstFaultDecides | code_dump/bkend/bkend.c:833-843 | the first descriptor that is unmapped, writable, too long or overrunning decides which fault stops the walk |
| Chains.ChainIsAcyclic | code_dump/bkend/bkend.c:846-850 | a chain that ends visits no descriptor twice |
| Chains.WalkOfChain | code_dump/bkend/bkend.c:832-851 | on a chain that ends the walk takes one step per descriptor and computes the reassembly |
| Chains.PositiveLengthsEnd | code_dump/bkend/bkend.c:832-851 | cyclic or not, with buffers of at least one byte the walk ends within MAX_LEN steps |
| Chains.ZeroLengthLoopNeverEnds | code_dump/bkend/bkend.c:832-851 | a zero-length descriptor that names itself keeps the walk running for ever |
| Chains.CopyChunk | code_dump/bkend/bkend.c:833-844 | one descriptor: the bytes at its translated address are appended in order and nothing else changes, or nothing changes and the fault is the one its checks dictate |
| Chains.GatherChain | code_dump/bkend/bkend.c:829-855 | the reassembly loop ends on ending chains and on positive lengths, and leaves in the buffer what the walk computes: every byte of the chain at its place |
| TxRingSafety.RingNeverOverflows | code_dump/bkend/bkend.c:815-900 | at most size entries are outstanding, because their chains are disjoint in a table of size descriptors |
| TxRingSafety.DeviceKeepsInv | code_dump/bkend/bkend.c:815-900 | every atomic step of the dequeue thread keeps the queue invariant |
| TxRingSafety.ScribbleKeepsInv | code_dump/bkend/bkend.c:815-900 | whatever the driver writes to memory it has not handed out keeps the invariant, also in the middle of a chain walk |
| TxRingSafety.ExposeKeepsInv | code_dump/bkend/bkend.c:155-160 | making a chain of free descriptors available keeps the invariant |
| TxRingSafety.ReclaimReadsOldest | code_dump/bkend/bkend.c:175-180 | the id the driver reads next is that of its oldest outstanding chain |
| TxRingSafety.ReclaimKeepsInv | code_dump/bkend/bkend.c:175-180 | taking a used element back keeps the invariant |
| TxRingSafety.RestartKeepsInv | code_dump/bkend/bkend.c:531-544 | a new process that takes both indices from the used ring before its thread starts keeps the invariant, wherever the old one ended |
| TxRingSafety.RunIsSafe | code_dump/bkend/bkend.c:799-902 | every world of every run satisfies the invariant |
| TxRingRuns.QueueIsFifo | code_dump/bkend/bkend.c:815-900 | in every run the ids read back and the frames received are in-order prefixes of what was made available, and reclaimed <= published <= consumed <= exposed <= reclaimed + size |
| TxRingRuns.StopsOnlyOnRejected | code_dump/bkend/bkend.c:836-855 | the thread stops the process only on a chain the walk rejects, with that chain's fault |
| TxRingRuns.UnreadUsedElementsSurvive | code_dump/bkend/bkend.c:889-892 | no step overwrites a published used element the driver has not read |
| TxRingRuns.ExactlyOnceWithoutRestart | code_dump/bkend/bkend.c:815-900 | without restarts every frame is received exactly once, in the order made available |
| TxRingRuns.RestartReplaysUnpublished | code_dump/bkend/bkend.c:531-544 | a new process skips nothing and replays exactly the entries consumed but not published, also after a fault |
| TxRingRuns.RingsHoldTheQueue | code_dump/bkend/bkend.c:818-899 | the heads between the indices of both rings, with the driver's chains and memory, are exactly the entries waiting, consumed and returned |
| TxRingRuns.RunRefinesFifo | code_dump/bkend/bkend.c:815-900 | every step of every run is a step of a first-in first-out queue read off the rings: the frame consumed is that of the oldest waiting chain, the id read that of the oldest returned one |
| TxRingProgress.DeviceLowersRank | code_dump/bkend/bkend.c:816-898 | every step of the thread inside a batch lowers a rank the driver cannot raise |
| TxRingProgress.BatchEnds | code_dump/bkend/bkend.c:816-899 | between two publications the thread takes fewer than (size + 1) * (size + 9) steps and consumes at most size entries, for every interleaving |
| TxRingProgress.EveryChainComesBack | code_dump/bkend/bkend.c:815-900 | on every fair infinite run each available chain is eventually published, unless the thread stops on a rejected chain |
| TxReload.ReloadIsExact | code_dump/bkend/bkend.c:531-544 | in every interleaving of thread, driver and the two stores, the thread goes on exactly at the first unpublished entry, told by the rings, if and only if at the second store the used index is published and either that store changes nothing or no entry is in hand and no slot was picked between the stores; the queue is then in order |
| TxReload.HarmlessReloadReplays | code_dump/bkend/bkend.c:531-544 | such a reload skips nothing and replays exactly the entries consumed but not published |
| TxReload.SessionIsFifo | code_dump/bkend/bkend.c:531-544 | between harmless reloads ids and frames are in-order prefixes of what was made available |
| TxReload.SecondStoreWrong | code_dump/bkend/bkend.c:827-899 | once the thread has picked a slot behind its entry, no second store makes it resume exactly |
| TxReload.BackToBackIsExact | code_dump/bkend/bkend.c:538-542 | with nothing between the stores the thread resumes exactly if and only if no entry is in hand or nothing moves |
| TxReloadEffects.NextFinishedIsFirstUnpublished | code_dump/bkend/bkend.c:531-544 | after an exact reload, on every continuation, the next entry finished is the first unpublished one, recorded in its own slot |
| TxReloadEffects.InHandIsAnother | code_dump/bkend/bkend.c:825-892 | with something unpublished, the entry in hand is not the first unpublished one, at every point up to the increments |
| TxReloadEffects.ReloadInsideEntrySkips | code_dump/bkend/bkend.c:531-544 | a reload on an entry with its slot picked and something unpublished: on every continuation the first unpublished entry is not replayed, the one in hand is received and still lies ahead, and the ids stay in order |
| TxReloadEffects.ReloadBeforeSlot | code_dump/bkend/bkend.c:826-827 | a reload before the slot is picked puts the entry in hand into the slot of the first unpublished one |
| TxReloadEffects.ReloadBetweenIncrements | code_dump/bkend/bkend.c:896-897 | a reload between the increments leaves the used index one ahead |
| TxReloadRun.EntryBetweenStoresMisplaced | code_dump/bkend/bkend.c:531-544 | a run with no entry in hand at either store in which the id of the second chain is read back first |
| TxReloadRun.ReloadReturnsChainTwice | code_dump/bkend/bkend.c:531-544 | a run in which one chain is served, published and read back twice |
| TxTwoThreads.TwoThreadsServeTwice | code_dump/bkend/bkend.c:615-620 | a run of two dequeue threads in which one chain is received twice and the available index overtakes the driver's |
| TxThread.DequeueThread.DriverTurn | code_dump/bkend/bkend.c:815-900 | any number of driver moves leaves the thread's indices, frames and rank alone |
| TxThread.DequeueThread.WalkOnce | code_dump/bkend/bkend.c:832-851 | one descriptor of the walk in place is the machine's walk step |
| TxThread.DequeueThread.Reassembly | code_dump/bkend/bkend.c:829-855 | the chain loop ends and delivers the chain's frame or its fault, the driver interfering between descriptors |
| TxThread.DequeueThread.Begin | code_dump/bkend/bkend.c:825-827 | the head and the used slot read are those of the next entry |
| TxThread.DequeueThread.Record | code_dump/bkend/bkend.c:889-892 | the two stores into the used ring leave the entry's element in place |
| TxThread.DequeueThread.Bump | code_dump/bkend/bkend.c:896-897 | after both increments the entry counts as consumed, the driver interfering between them |
| TxThread.DequeueThread.Batch | code_dump/bkend/bkend.c:815-900 | one batch ends for every driver, keeps the invariant, publishes all it consumed and consumes at most size entries, or stops on a rejected chain |
| RxScatter.GatherUndoesScatter | code_dump/bkend/bkend.c:744-777 | reading the used-length prefixes back gives the metadata and the first min(10240, capacity) bytes of the frame |
| RxScatter.ChunkIsShare | code_dump/bkend/bkend.c:757-769 | the 32-bit copy length of each buffer is its share of the frame |
| RxScatter.FirstChunkFitsExactly | code_dump/bkend/bkend.c:757-760 | the first copy stays inside its buffer exactly when the buffer has room for the metadata |
| RxScatter.CollectsHeads | code_dump/bkend/bkend.c:704-726 | when the next heads are unchained writable descriptors the collection loop gathers exactly those |
| RxScatter.CollectMeaning | code_dump/bkend/bkend.c:704-726 | chained or not, the loop collects writable buffers with the address and length of their descriptors, each followed by the next of its chain or the next available head |
| RxScatter.ThreeHeadsExactly | code_dump/bkend/bkend.c:695-726 | buffer k comes from a slot filled since it was last taken, and is the entry offered, exactly when k is below the available count; the available index is not overtaken exactly when three are available |
| RxScatter.OneHeadOvertakes | code_dump/bkend/bkend.c:695-777 | with one head available the frame goes into two buffers that were not offered and the index runs two ahead |
| RxScatter.UsedLengthsSum | code_dump/bkend/bkend.c:762-771 | the bytes the guest reads are as many as the used lengths add up to |
| RxScatter.RxQueue.Collect | code_dump/bkend/bkend.c:700-726 | the collection loop computes the collection, following NEXT where set |
| RxScatter.RxQueue.ReturnBuffer | code_dump/bkend/bkend.c:770-776 | one used element is written, both indices and the used index advance by one, modulo 2^16 |
| RxScatter.RxQueue.ScatterAndReturn | code_dump/bkend/bkend.c:744-777 | every buffer holds its piece and stands in the used ring in order; written plus remaining is 10240 throughout |
| RxScatter.RxQueue.EnqueueFrame | code_dump/bkend/bkend.c:694-797 | one pass does nothing, or delivers 48 bytes of metadata and the frame, byte by byte, in the buffers of the next three available slots, changes nothing outside them and their used slots, and returns lengths that sum to 48 plus the bytes written |
| Backend.AddrIsReload | code_dump/bkend/bkend.c:531-544 | the message that names the same rings is the reload, and between two steps of the thread makes it resume exactly if and only if no entry is in hand or the available index does not move |
| Backend.TableFromMessage | code_dump/bkend/bkend.c:497-524 | the table has disjoint regions and mappings exactly when the message has |
| Backend.MessageTranslates | code_dump/bkend/bkend.c:506-521 | an address at an offset of a message's region, guest-physical or user, translates to the region's mapping plus file offset plus that offset |
| Backend.MessageOmits | code_dump/bkend/bkend.c:506-521 | an address in none of the message's regions does not translate |
| Backend.Device.Lookup | code_dump/bkend/bkend.c:376-386 | the scan over the region array returns the table's translation |
| Backend.Device.SetMemTable | code_dump/bkend/bkend.c:497-524 | after a proper message every guest-physical and every user address of its regions translates to its mapped byte; the table is fit for the translations exactly when the message is proper |
| Backend.Device.Handle | code_dump/bkend/bkend.c:525-569 | size, base and descriptors are set as each message says and nothing else; the three ring pointers are the translations of their own addresses and both indices the used index, or the message fails without change; the base is replied when asked for |
| Backend.Device.Enable | code_dump/bkend/bkend.c:603-623 | the transmit thread is started exactly by the second and later enabling messages of queue 1 |
| PipelineSafety.ProdKeepsInv | vtb/src/vhost_controller.cpp:119-156 | every producer step keeps conservation, order, accounting and the shutdown facts |
| PipelineSafety.ConsKeepsInv | vtb/src/vhost_controller.cpp:169-234 | every consumer step keeps them |
| PipelineSafety.RunIsSafe | vtb/src/vhost_controller.cpp:115-239 | every state of every run satisfies the invariant |
| PipelineRuns.OneOwnerEach | vtb/src/vhost_controller.cpp:125-234 | each packet taken is in exactly one place, in order, live buffers are distinct, and freed plus live is taken |
| PipelineRuns.FreesOnlyWhatItOwns | vtb/src/vhost_controller.cpp:206-234 | a step frees only buffers the pipeline owns and owns none of them afterwards |
| PipelineRuns.DeliveryKeepsOrder | vtb/src/vhost_controller.cpp:137-218 | packets delivered are always a subsequence, in order, of those taken |
| PipelineRuns.DroppedIffGaveUp | vtb/src/vhost_controller.cpp:187-214 | over a run, something was dropped exactly when some burst ended with all attempts used and packets refused |
| PipelineRuns.LosslessUntilDropOrDrain | vtb/src/vhost_controller.cpp:137-218 | until a burst gives up or the drain starts, packets delivered are an exact prefix of those taken |
| PipelineRuns.DropsOnlyAfterAllRetries | vtb/src/vhost_controller.cpp:187-214 | packets are dropped exactly by a burst that used up all attempts with some refused |
| PipelineRuns.FinalAccounts | vtb/src/vhost_controller.cpp:150-214 | after both exits: taken = delivered + dropped + drained + residue, the counters modulo 2^64, and bytes equal delivered bytes exactly when dropped bytes are zero |
| PipelineRuns.ResidueIsLateProduction | vtb/src/vhost_controller.cpp:226-234 | the ring left behind is exactly what the producer held at the consumer's last dequeue and took after it |
| PipelineDevice.ReadyIsPresent | vtb/src/vhost_controller.cpp:270-284 | the threads see a device, and see it as v, exactly when v was the last to arrive and has not been removed since |
| PipelineDevice.OtherRemovalIsIgnored | vtb/src/vhost_controller.cpp:277-284 | removing a device that is not the current one changes nothing; removing the current one clears flag and id alone |
| PipelineDevice.NothingMovesWithoutDevice | vtb/src/vhost_controller.cpp:119-173 | until a device arrives nothing is taken, nothing delivered and neither thread gets past its readiness test |
| PipelineDevice.AtMostOneLateBurst | vtb/src/vhost_controller.cpp:119-173 | after the current device is gone each thread fetches at most one burst, and only one whose readiness test came before |
| PipelineShutdown.ProdLowersRank | vtb/src/vhost_controller.cpp:119-156 | after quit every producer step lowers the work left, unless the ring is full or the thread is done |
| PipelineShutdown.ConsLowersRank | vtb/src/vhost_controller.cpp:169-234 | after quit every consumer step lowers the work left until it is done |
| PipelineShutdown.NoSpinAfterConsumerExit | vtb/src/vhost_controller.cpp:137-148 | once the consumer has exited the producer never meets a full ring |
| PipelineShutdown.ShutdownCompletes | vtb/src/vhost_controller.cpp:244-265 | on every fair run, from any state with quit set, both threads exit and at most one burst remains |
| PipelineShutdown.DrainCanMissAPacket | vtb/src/vhost_controller.cpp:226-234 | a run in which a packet stays in the ring after both exits |
| PipelineShutdown.RefusedPacketIsLost | vtb/src/vhost_controller.cpp:187-214 | a run in which a refused packet is lost and the byte counter shows it as sent |
| ConsumerThread.VhostController.Attempt | vtb/src/vhost_controller.cpp:190-199 | one attempt delivers a prefix of the rest and counts a retry exactly if something was refused |
| ConsumerThread.VhostController.Deliver | vtb/src/vhost_controller.cpp:187-218 | one burst ends for every guest and producer: a prefix is delivered, all of it unless every attempt was used, all buffers are freed, both counters advance |
| ConsumerThread.VhostController.Drain | vtb/src/vhost_controller.cpp:226-234 | once quit is set the drain ends for every producer, frees what it takes out and delivers nothing |
| Logger.NextKeepsInv | vtb/src/logger.cpp:15-77 | every step of callers, flusher, init and destructor keeps the invariant |
| Logger.NothingLostOrRepeated | vtb/src/logger.cpp:31-56 | before the final drain, written ++ in hand ++ buffered is the accepted lines in lock order |
| Logger.AcceptedOrWaiting | vtb/src/logger.cpp:31-36 | the lines of the calls that passed the level in force when made are, each once, accepted or waiting for the mutex |
| Logger.FirstInitDecides | vtb/src/logger.cpp:12-25 | the first call of init decides level and file; before it the default level holds |
| Logger.WrittenOnceAfterDestruction | vtb/src/logger.cpp:58-77 | after destruction exactly the lines accepted before the final critical section are written, once, in order, identically to an open file |
| Logger.UninitialisedWritesNothing | vtb/src/logger.cpp:12-36 | without init nothing is written and the lines stay buffered |
| Logger.JoinReturns | vtb/src/logger.cpp:38-77 | after running is cleared the flusher exits within seven of its steps |
| LoggerThread.AsyncLogger.FlushLoop | vtb/src/logger.cpp:38-77 | for any schedule of calls and of the destructor the loop and the final drain write exactly what was accepted before the final critical section, once and in order; later calls stay buffered |
| Odometer.IncrInPlace | code_dump/dpdk/lm/startvm.cpp:381-401 | the in-place increment computes the odometer step |
| Odometer.IncrRaisesExactly | code_dump/dpdk/lm/startvm.cpp:388-398 | for any width, an increment raises the big-endian value exactly when its carry fits |
| Odometer.IncrAddsOneExactly | code_dump/dpdk/lm/startvm.cpp:388-398 | it adds one exactly unless it carries into a parent that has moved away |
| Odometer.IterateIncreases | code_dump/dpdk/lm/startvm.cpp:381-401 | for any width, while carries fit, later addresses are larger by at least one a step |
| Odometer.IterateIsInjective | code_dump/dpdk/lm/startvm.cpp:381-401 | addresses after different numbers of increments differ |
| Odometer.MacIsBasePlusN | code_dump/dpdk/lm/startvm.cpp:403-418 | from the initial address the n-th value is base + n exactly up to n = 65791 |
| VmLaunch.RenderInjective | code_dump/dpdk/lm/startvm.cpp:414 | different addresses render to different strings |
| VmLaunch.MacEntryIsText | code_dump/dpdk/lm/startvm.cpp:403-418 | entry k of the table is, character by character, the quoted address 00:60:2f:00 followed by k + 1 in four hexadecimal digits |
| VmLaunch.MacEntriesDiffer | code_dump/dpdk/lm/startvm.cpp:403-418 | no two of the 1024 table entries are equal |
| VmLaunch.Pregenerate | code_dump/dpdk/lm/startvm.cpp:403-418 | entry k of the table is the rendered address after k + 1 increments |
| VmLaunch.PinIsLinearExactly | code_dump/dpdk/lm/startvm.cpp:331-333 | pinning advances two CPUs per port exactly for starts that never reach the -1 sentinel |
| VmLaunch.AllocatePorts | code_dump/dpdk/lm/startvm.cpp:327-350 | the port loops of one machine take consecutive addresses and advance the pinning start, or run off the table |
| VmLaunch.Launch | code_dump/dpdk/lm/startvm.cpp:269-367 | the launch completes exactly when machines plus ports fit the table, and machine k gets its own address, ports, two CPUs a port, display + k and console 8900 + telnet + k |
| VmLaunch.MacsAreDistinct | code_dump/dpdk/lm/startvm.cpp:305-350 | management and port addresses are pairwise distinct across all machines |
| VmLaunch.CpusAreConsecutive | code_dump/dpdk/lm/startvm.cpp:327-334 | pinned CPU ranges are consecutive and disjoint; displays and console ports differ |
| VmLaunch.Bringup | code_dump/dpdk/lm/startvm.cpp:64-82 | the whole launch: without a list every machine has perLm ports, with one machine k has entry k and the list must match the number of machines; it succeeds exactly when machines and ports fit 1024 addresses; every address is written out and all are distinct, displays and consoles are by number, pinned CPUs are consecutive |
| Cmdline.ParseOfRender | vtb/src/cmdline_parser.cpp:22-38 | parsing a rendering of readable items gives back exactly their effect, without error |
| Cmdline.ParseReadsEveryToken | vtb/src/cmdline_parser.cpp:22-38 | a parse without error has read every token as a declared flag or as a flag's value |
| Cmdline.ParsesExactlyRenderings | vtb/src/cmdline_parser.cpp:22-38 | the token loop succeeds exactly on the renderings of readable items |
| Cmdline.ApplyAllMeaning | vtb/src/cmdline_parser.cpp:25-36 | each argument ends with the last value given or its default, and is found exactly if mentioned |
| Cmdline.RoundTrip | vtb/src/cmdline_parser.cpp:13-68 | a rendered command line parses exactly when all required arguments occur, and look-up by either name gives the last value or the default |
| Cmdline.PlainRoundTrip | vtb/src/cmdline_parser.cpp:13-68 | the same for any list of declared flags, each with a value that does not start with a dash |
| Cmdline.DashIsNoValue | vtb/src/cmdline_parser.cpp:29-36 | a token whose first character is a dash is never taken as a value; undeclared, it fails |
| Cmdline.BareFlagExactly | vtb/src/cmdline_parser.cpp:29-34 | a flag without a value fails exactly when it is required and has no value yet |
| Cmdline.UnknownTokenFails | vtb/src/cmdline_parser.cpp:22-38 | after declared flags with their values, the first undeclared token ends the parse with their effect kept |
| Cmdline.FirstMissingMeaning | vtb/src/cmdline_parser.cpp:40-43 | the check fails exactly when a required argument was not seen, and names the first one |
| Cmdline.HelpNeedsAValue | vtb/src/config_manager.cpp:12-28 | the help test is on exactly when the last value given to it reads as true |
| Cmdline.BareHelpStaysOff | vtb/src/config_manager.cpp:12-28 | a command line with the bare help flag parses and leaves help off |
| Cmdline.CmdlineParser.AppStart | vtb/src/cmdline_parser.cpp:14-20 | the index found starts the tokens after the first separator |
| Cmdline.NoSeparatorNoTokens | vtb/src/cmdline_parser.cpp:14-20 | without a separator there are no application tokens |
| Cmdline.CmdlineParser.ParseArgs | vtb/src/cmdline_parser.cpp:13-44 | the loops leave the arguments and the exception that the specification gives, also after an error |
| QueueTable.SetFromWrites | vtb/src/config_manager.cpp:79-88 | on numbered pairs the scan writes the flag of its vring and no other |
| QueueTable.TableIsMap | vtb/src/config_manager.cpp:53-107 | for every call history a port is present exactly if initialised, pair i has ids 2i and 2i + 1, and its receive and transmit flags are the last values set for vrings 2i and 2i + 1 since the last initialisation |
| QueueTable.TableSockets | vtb/src/config_manager.cpp:53-107 | for every call history sockets, control path, device id and readiness are those last assigned |
| QueueTable.SetStateTouchesOnlyFlags | vtb/src/config_manager.cpp:73-89 | enabling a vring changes no id, socket, control path or readiness |
| QueueTable.ConfigManager.InitVhostDevice | vtb/src/config_manager.cpp:53-71 | the loop initialises the port's pairs as specified and no other port |
| QueueTable.ConfigManager.SetQueueState | vtb/src/config_manager.cpp:73-89 | the loop sets the matching flag as specified, or nothing |
| QueueTable.ConfigManager.AssignPortSocket | vtb/src/config_manager.cpp:91-100 | both handles of the pair become the socket; pair 0 marks the device ready |

## Left out

- `code_dump/nonm/bkend.c` and `code_dump/vm_tap/bkend.c`: the same ring core with frame printing added.
- Sockets, `recvmsg`, `select`, `mmap`, event descriptors and the feature messages of the backend: system I/O; the memory table arrives with its mappings made.
- Weak memory ordering: all steps are sequentially consistent.
- The kick, the frame counter and the timing of the receive loop: I/O and clocks.
- The reading of chained receive buffers: the collection loop is modelled with its NEXT branch, but the delivery theorem is about unchained buffers, since the source returns one used element per descriptor.
- DPDK itself: bursts are primitives that push at most what fits and pop at most what is there, at least one when possible; buffers come from a pool that hands out only buffers not in use; the per-packet hook is the default no-op; the ring capacity is any number from one burst up.
- The producer's loops in imperative form: the push loop ends only if the consumer runs, so it is modelled as steps and its termination is part of `PipelineShutdown.ShutdownCompletes`.
- Numeric parsing (`stoi`, `stoull`, `atoi`), usage printing, the typed value database and the text of the launch command: library behaviour and formatting.
- Two dequeue threads on one queue: one run shows what they do; the theorems are about one thread.
- A ring-address message that moves the rings of a running queue: the thread would go on with the old pointers.
- TxReload.ReloadIsExact: each of the two stores is one step with its read of the used index, as is the read of the available index with that of its slot, and each increment; a process that ends between the stores is not covered.
- Chains.ReassembleMeaning: a copy that overruns the buffer is modelled as the end of the process; what it does to the heap is not.
- Words.WrapDecidesEquality: counters 2^16 or more apart are not covered; ring sizes up to 2^15 never let them get there.
- The simpler pipelines, packet sniffers, socket demos and controller stubs elsewhere in the repository: they would only add easier members.
