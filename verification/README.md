# Models of the LDD example drivers

A Dafny model of the stateful drivers of this repository and proofs about it: the scull pipe, the scull
and sculld stores, the access-controlled devices, the sbull disk, the snull interfaces, and the proc file
of the tiny tty. `dafny verify dfyconfig.toml` checks everything.

The code is modelled as it is written. Where it departs from what it evidently means to do, both versions
are kept behind a rule parameter (or the departure is a step of its own), a concrete run or call shows it
go wrong, and an if-and-only-if says exactly when the code keeps its promise. The table names both.

| where the code and its comments or its evident intent part | what is proved about it |
|---|---|
| `scull/pipe.c:126` bounds a wrapped read by `end - wp`; the comment above says read pointer to end | `Ring.RulesAgree`, `Ring.ReadTakesOldest`; a harmful step of `PipeProtocol.RunExact`; `PipeProtocol.OverrunRun` gets there from a fresh device |
| `scull/pipe.c:67-69` resets size and pointers at every open | `PipeDevice.ScullPipe.Open`; the other harmful steps of `PipeProtocol.RunExact`: an open over unread bytes (`ResetRun`), a write that crosses the allocation after an open with a larger size (`GrownRun`), an open that makes room for a sleeping writer in a one-byte buffer (`StrandedRun`) |
| `scull/pipe.c:138-139` says one writer is woken; `wake_up_interruptible` wakes all that wait non-exclusively | modelled as waking all |
| `scull/main.c:262-263` subtracts unsigned | `StoreFile.ReadStaysInsideExactly`, `StoreFile.StaleRead` |
| `scull/main.c:255` and `298` read the geometry before taking the semaphore | `StoreRuns.StaleWriteExactly`, `StoreRuns.StaleWriteLands`, `StoreRuns.StaleReadExactly`; `StoreRuns.StaleWriteRun` |
| `scull/main.c:324` leaves a new block uncleared | `StoreFile.Spliced` in all store theorems, `StoreRuns.UnzeroedWriteIsNot` |
| `scull/access.c:70` hands out the single-open device | `SingleOpen.RunExclusiveExactly`, `SingleOpen.GuestJoinsHolder` |
| `sbull/sbull.c:111-112` gives every segment the length of the first | `SbullDisk.LengthsAgreeExactly`, `SbullDisk.UnevenBio` |
| `sbull/sbull.c:167` deletes the timer before the lock | `SbullMedia.TimerUnderUser` |
| `sculld/main.c:71-72` leaves followers with order 0 | `SculldStore.FollowersAreOnePage`; `SculldStore.FollowerOverrun` |
| `sculld/main.c:71-72` clears a new item without looking whether it was allocated | `SculldStore.WriteRefines`, `SculldStore.ReadRefines`: wild whenever memory is short of an item |
| `snull/snull.c:139-140` and `284-286` drop the lock between looking and acting | `SnullNet.RunExact`, `SnullNet.WakeWithEmptyPool`, `SnullNet.StrandedPacket` |
| `tty/tiny_tty.c:361` sets `eof` with no port open, header unread | last `ensures` of `TinyProc.ReadProc`; `TinyProc.EndReportedEarly` |

How it is laid out: `Ring`, `PipeDevice` and `PipeProtocol` are the pipe (arithmetic, the device updated in
place, the interleaving machine), and `PipeCalls` what a single call can rely on. `QuantumStore` is the store as a value, `StoreFile` reads it as a flat
file, `StoreRuns` has loops and histories of calls, `ScullDevice` is the linked structure proved to do what
`QuantumStore` says, `SculldStore` the page-order variant. `SnullDevice` has the packet lists in memory,
`SnullNet` their interleavings, `IpHeader` the rewrite. `SingleOpen`, `BlockingOpen` and `PrivateDevices`
are the access rules; `SbullDisk` and `SbullMedia` the block driver; `TinyProc` the proc file.

The interleaving machines run any number of processes; an event is one step of one of them, split wherever
the code gives up a lock or reads without one. A run is any sequence of enabled events. What the kernel
decides is a parameter of the operation: which allocations succeed (`mem`), what fresh memory holds, whether
a user copy fails and what it leaves, signals, spurious wake-ups, and timer expiry.

## Model

| member | source | states |
|---|---|---|
| Ring.SpaceAddsUp | scull/pipe.c:145-150 | used plus free space is always the buffer size less one, and the ring is empty exactly when the pointers meet |
| Ring.UnlockedFullIsFull | scull/pipe.c:164 | the re-check without the semaphore reports "full" only on a full ring, even while a pointer stands at `end` |
| Ring.ReadChunkExact | scull/pipe.c:123-126 | a read that does not overrun is for the smallest of the request, the unread bytes and what lies before the end; one that does, for the smaller of the request and what lies between write pointer and end |
| Ring.WriteChunkExact | scull/pipe.c:195-199 | on either side of the read pointer, a write is for the smallest of its data, all the free space, and what lies before the end |
| Ring.ReadTakesOldest | scull/pipe.c:123-136 | a read stays in the buffer exactly when it does not overrun; then it takes the oldest unread bytes in order, and stops short of the request only when none is left or at the end of the buffer |
| Ring.RulesAgree | scull/pipe.c:125-126 | the code and its comment give the same count on exactly the reads that do not overrun |
| Ring.WrappedReadOverrun | scull/pipe.c:126 | a concrete ring and count for which line 126 runs past the buffer |
| Ring.WriteAppends | scull/pipe.c:194-209 | a write with space appends its bytes behind the unread ones, never uses the reserved slot, and stops short of its data only at a full ring or at the end of the buffer |
| PipeDevice.ScullPipe.Open | scull/pipe.c:50-79 | every open, whatever size is requested, allocated or unread, leaves an empty device fit for use with the size requested now; only the first allocates; failure changes nothing |
| PipeDevice.ScullPipe.Release | scull/pipe.c:82-98 | the buffer goes exactly when the last reader and writer do |
| PipeDevice.ScullPipe.Read | scull/pipe.c:102-141 | would block exactly on an empty ring; a failed copy changes nothing; otherwise as many of the oldest bytes as are asked for, are there and lie before the end leave the ring, and the device stays usable exactly when the read does not overrun; the count of one that does is stated too |
| PipeDevice.ScullPipe.FreeSpace | scull/pipe.c:145-150 | free space is the size less one less the unread bytes |
| PipeDevice.ScullPipe.Write | scull/pipe.c:180-219 | would block exactly on a full ring; a failed copy changes nothing; the copy is wild exactly when it crosses the allocation; otherwise as much of the data as is free and lies before the end goes behind the unread bytes |
| PipeDevice.ScullPipe.Poll | scull/pipe.c:221-236 | readable exactly when bytes wait, writable exactly when one more fits |
| PipeProtocol.FifoStep | scull/pipe.c:102-219 | one step of any process keeps "accepted = returned + ring contents" exactly when it is neither an overrunning read nor an open over unread bytes |
| PipeProtocol.InsideStep | scull/pipe.c:59-69 | and keeps every copy in the allocation exactly when it is not a write that crosses its end |
| PipeProtocol.OpenExact | scull/pipe.c:67-69 | an open over an empty ring keeps all promises, with whatever size, unless it makes room for a writer asleep in a one-byte buffer |
| PipeProtocol.StepExact | scull/pipe.c:50-219 | FIFO order, copies inside the allocation, mutual exclusion and both no-lost-wake-up properties survive a step exactly when it is not harmful |
| PipeProtocol.RunExact | scull/pipe.c:50-219 | in every run from a fresh device all of these hold in every state exactly when no step was harmful |
| PipeProtocol.IntendedRunsAreHarmless | scull/pipe.c:125-126 | with the intended read rule and no further open no schedule is harmful |
| PipeProtocol.NoDeadlock | scull/pipe.c:108-139 | with at least two bytes of buffer, readers and writers are never all asleep together; a sleeping reader means all bytes are returned, a sleeping writer that the ring is full |
| PipeProtocol.OwedWakeArrives | scull/pipe.c:133-138 | whoever owes a sleeper a wake-up can always get to it, releasing the semaphore on the way |
| PipeProtocol.ReaderMustLookAgain | scull/pipe.c:112-116 | a run in which a whole write, wake-up included, falls between a reader's release of the semaphore and its joining of the queue: asleep there it would be lost, and looking again it goes on |
| PipeProtocol.WriterMustLookAgain | scull/pipe.c:160-165 | the same for a writer, a whole read, and the test of line 164 |
| PipeProtocol.OverrunRun | scull/pipe.c:126 | a run from a fresh four-byte device to a read that returns more bytes than there are |
| PipeProtocol.ResetRun | scull/pipe.c:69 | a run in which an open throws away an accepted byte |
| PipeProtocol.GrownRun | scull/pipe.c:67-68 | a run in which a write passes the allocation after an open with a larger size |
| PipeProtocol.StrandedRun | scull/pipe.c:67-69 | a run in which an open makes room and leaves a writer asleep |
| PipeProtocol.OneByteDeadlock | scull/pipe.c:145-150 | with a one-byte buffer a reader and a writer can sleep on each other, and neither call returns whatever happens but a signal |
| PipeCalls.OthersStay | scull/pipe.c:139-212 | a step of one process moves no other; a wake-up marks those on its queue, and that is all |
| PipeCalls.CallKeepsRequest | scull/pipe.c:111-176 | however long a call waits and however often it is woken, it goes on to ask for the same |
| PipeCalls.ReturnsExactly | scull/pipe.c:108-218 | a call returns exactly on a signal, with EAGAIN for a nonblocking read of an empty ring, with EFAULT for a failed copy, or after its wake-up; it then holds no semaphore, and its return itself moves no byte |
| PipeCalls.Interruptible | scull/pipe.c:108-174 | a call that waits for the semaphore or on its queue can be interrupted, and has then done nothing; a sleeper may also be woken for no reason |
| PipeCalls.NonblockingNeverWaits | scull/pipe.c:113-114 | in no run does a nonblocking read wait for bytes |
| PipeCalls.ReaderGetsThrough | scull/pipe.c:111-141 | with bytes there and the semaphore free, a reader from wherever it waits returns after a stated number of its own steps, with as many of the oldest bytes as it may take, the semaphore freed and the writers on their queue woken |
| PipeCalls.WriterGetsThrough | scull/pipe.c:155-218 | the same for a writer with space there: what it puts in, and that the readers are woken |
| QuantumStore.LocateInverts | scull/main.c:265-269 | offsets and (item, slot, place in block) correspond one to one |
| QuantumStore.SameBlock | scull/main.c:265-269 | two offsets share a block exactly when they lie within one quantum |
| StoreFile.PrepareExact | scull/main.c:313-327 | the allocations of a write succeed exactly when memory suffices and otherwise leave every block as it was; the list reaches exactly as far as memory allows, and the item has an array exactly if it had one or memory was left for it |
| StoreFile.WriteExact | scull/main.c:292-347 | a write fails exactly when memory is short, then changing nothing readable; otherwise it splices the longest part of the data that fits the quantum into the flat file |
| StoreFile.FaultyWrite | scull/main.c:333-336 | a failed user copy alters only bytes of the requested range, and not the size |
| StoreFile.ReadExact | scull/main.c:249-289 | a read from inside the file returns its bytes up to count, end of file or end of quantum, and keeps the file although the list may grow |
| StoreFile.FaultyRead | scull/main.c:281-284 | a read whose user copy fails ends as a fault with no bytes and keeps the file; where there is no block it is the end of the file |
| StoreFile.ReadersGrowToo | scull/main.c:272 | a read, too, lengthens the list by empty items exactly as far as memory allows, whatever it returns |
| StoreFile.ReadStaysInsideExactly | scull/main.c:262-263 | the clip protects a read exactly when it starts inside the file or there is no block |
| StoreFile.StaleRead | scull/main.c:262-263 | a read past the end of a one-byte file that returns stale bytes |
| StoreRuns.OneQuantumPerCall | scull/main.c:329-331 | a call that stops short leaves a rest that touches one block less |
| StoreRuns.WriteAllExact | scull/main.c:292-347 | looping writes puts in all the data, in exactly one call per block touched |
| StoreRuns.ReadAllExact | scull/main.c:249-289 | looping reads returns the data, in exactly one call per block touched |
| StoreRuns.RoundTrip | scull/main.c:249-347 | what is written in a loop is read back in a loop, for every geometry, offset and content |
| StoreRuns.ZeroedWriteIsSplice | sculld/main.c:150-155 | with cleared blocks a write changes no byte outside the range, held or not |
| StoreRuns.UnzeroedWriteIsNot | scull/main.c:323-327 | without clearing it can |
| StoreRuns.HistoryKeepsShape | scull/main.c:49-71 | through all histories of reads, writes, failures, trims and changes of the global sizes, arrays and blocks fit the device's geometry, which only trims change |
| StoreRuns.JustTrimmed | scull/main.c:66-69 | after every history a trim leaves the device without bytes and items, with the quantum and the set size that were set last |
| StoreRuns.TrimTakesLastGlobal | scull/main.c:68-69 | and the device keeps both until the next trim, whatever is written, read or set in between |
| StoreRuns.LastWriteWins | scull/main.c:249-347 | in every history the last write to an offset that had its memory says what is there until the next trim, however many other calls succeed or fail in between |
| StoreRuns.StaleWriteExactly | scull/main.c:298 | for every geometry read without the semaphore, store and memory: the write stays in its block and keeps the shape exactly when slot, room and what is allocated agree with the device's own geometry |
| StoreRuns.OwnGeometryIsSafe | scull/main.c:298 | which they do whenever it is the device's own |
| StoreRuns.StaleWriteLands | scull/main.c:308-342 | such a write lands at the offset where the device's geometry has that place, the one asked for exactly when the two geometries agree on it |
| StoreRuns.StaleReadExactly | scull/main.c:255 | a read with a geometry read too early keeps the file, leaves its array or block exactly when slot or room is lacking, faults exactly when its copy fails on a block, and otherwise returns so many bytes of that place |
| StoreRuns.StaleWriteRun | scull/main.c:298 | a trim to smaller blocks in between, and a write past the block |
| ScullDevice.ScullDev.ModelIsWellShaped | scull/main.c:49-71 | the linked structure stands for a well-shaped store |
| ScullDevice.ScullDev.Append | scull/main.c:239-242 | a new item joins the end of the list, which stays acyclic and shares nothing |
| ScullDevice.ScullDev.Follow | scull/main.c:223-246 | terminates with the item exactly n links on, or null if memory ends before; the list is as long as need be or as memory allows |
| ScullDevice.ScullDev.ReachBlock | scull/main.c:323-327 | a block for a slot that has none, as the value model has it, by one allocation; none for a slot that has one |
| ScullDevice.ScullDev.Prepare | scull/main.c:313-327 | the allocations done to the structure are those of the value |
| ScullDevice.ScullDev.Address | scull/main.c:265-269 | computes the place of an offset, inside the array and the block |
| ScullDevice.ScullDev.Write | scull/main.c:292-347 | does to the structure in memory what the value model says; the position moves by what was accepted |
| ScullDevice.ScullDev.Read | scull/main.c:249-289 | likewise for reads, bytes and position included |
| ScullDevice.ScullDev.FreeItem | scull/main.c:57-67 | one turn of the loop frees the item, its array and its blocks, each once, and none before what it points to |
| ScullDevice.ScullDev.Trim | scull/main.c:49-71 | frees everything the device had allocated, each object exactly once, blocks before their array and arrays before their item; size 0, no list, and the global quantum and set size taken over |
| SculldStore.WriteRefines | sculld/main.c:124-172 | with whatever order and memory, a write does what scull's does with cleared blocks of the item's order, unless memory is short of a list item, which is wild |
| SculldStore.FittingWriteIsSculls | sculld/main.c:124-172 | with order 0, or with inherited orders, that is scull's write on a well-shaped store, and wild exactly when memory is short of a list item |
| SculldStore.ReadRefines | sculld/main.c:80-122 | a read returns what scull's would, with the same exception |
| SculldStore.FollowersAreOnePage | sculld/main.c:71-72 | with followers of order 0, a write is wild exactly when memory is short of an item, or it gets to a follower's block and beyond its first page |
| SculldStore.ReadsOfOnePage | sculld/main.c:103-113 | and a read exactly when memory is short of an item, or it goes beyond the first page of a follower's block that is there |
| SculldStore.FollowerOverrun | sculld/main.c:71-72 | a device of order 1 and a write past the one page of its second item |
| SculldStore.BlockSizeIsShift | sculld/main.c:85 | a block is the page size times two to the order, for every order |
| SculldStore.TrimTakesLastSizes | sculld/main.c:236-239 | in every history a trim leaves the device alone in its list, empty, with the order and the set size that were set last |
| SculldStore.FreedAllExactly | sculld/main.c:222-235 | the trim loop frees exactly the blocks, arrays and follower items there are, each once, blocks with their own order, and none before what it points to |
| SculldStore.TrimFreesWithOwnOrder | sculld/main.c:213-241 | after every history all that was allocated is freed once, each block with the order it was allocated with |
| SculldStore.WrittenIsFreed | sculld/main.c:124-235 | the block of every write that had its memory is freed by the next trim, with the order of its item, whatever calls come in between |
| SnullNet.StepConserves | snull/snull.c:104-167 | no step loses or copies a packet or puts it where its owner's packets do not belong |
| SnullNet.RunConserves | snull/snull.c:72-167 | in every run, harmful or not, each packet is in exactly one pool, queue or hand, once |
| SnullNet.FlowStep | snull/snull.c:104-142 | flow control survives a step exactly when it is not the waking of a sender whose pool is empty |
| SnullNet.NotifiedStep | snull/snull.c:282-288 | no packet is stranded by a step except an enabling of interrupts over a silently refilled queue |
| SnullNet.RunExact | snull/snull.c:104-363 | flow control and notification hold in every state of a run exactly when none of its steps was harmful; packets are conserved in any case |
| SnullNet.StoppedIffEmpty | snull/snull.c:117-121 | with no wake-up and no wake decision due, a queue is stopped exactly when its pool is empty |
| SnullNet.UnbrokenIsHarmless | snull/snull.c:131-142 | if a release with its two looks and its wake-up, and an empty check with its enabling, each run unbroken, no schedule is harmful |
| SnullNet.WakeWithEmptyPool | snull/snull.c:139-141 | a run in which the dropped lock makes a sender take from an empty pool |
| SnullNet.StrandedPacket | snull/snull.c:284-286 | a run in which the unlocked poll tail leaves a packet queued with nothing to fetch it |
| SnullNet.WakeHasCause | snull/snull.c:131-142 | in every run a sender about to be woken was seen stopped by a release whose packet was then seen to be the last of its list |
| SnullNet.DecisionWakes | snull/snull.c:140-141 | and such a pair of looks leads to a wake-up, whatever comes in between |
| SnullNet.DecisionsAreSpent | snull/snull.c:131-142 | in every run each release looks once at its queue, at most once at `next`, and wakes at most once |
| SnullNet.NextStaysRight | snull/snull.c:104-167 | in every run, harmful or not, `next` of a packet on a list is null exactly if the packet is at its bottom |
| SnullNet.PollCycle | snull/snull.c:250-290 | a poll is scheduled by an interrupt only, closes over an empty queue only, and ends with interrupts on; packets come off the queue one by one, under polling only while it runs |
| SnullNet.LatestFirst | snull/snull.c:145-167 | the packet queued last is the one received next |
| SnullDevice.PacketList.Push | snull/snull.c:137-138 | the packet goes on top, the list stays acyclic and disjoint from the others, and `next` is null exactly if it was empty |
| SnullDevice.PacketList.Pop | snull/snull.c:155-167 | the packet on top comes off and belongs to no list |
| SnullDevice.SetupPool | snull/snull.c:72-89 | as many new packets as asked for or as memory allows, all owned by the device |
| SnullDevice.TeardownPool | snull/snull.c:92-101 | frees every packet of the pool once |
| SnullDevice.GetTxBuffer | snull/snull.c:104-128 | hands out the top packet and stops the queue when none is left |
| SnullDevice.ReleaseBuffer | snull/snull.c:131-142 | returns a packet to the pool it came from; the first one back into an empty pool wakes the sender |
| SnullDevice.Poll | snull/snull.c:250-291 | terminates, delivers the queue in order up to the quota, drops what has no memory, returns every packet to its pool, keeps the statistics, charges budget and quota alike, and enables interrupts exactly when it finished |
| SnullDevice.RegularInterrupt | snull/snull.c:294-330 | delivers or drops the packet at the head and returns it to its pool |
| SnullDevice.HwTx | snull/snull.c:366-428 | the frame goes out in a packet of the pool, which comes back; what the peer receives is the frame as rewritten |
| SnullDevice.Tx | snull/snull.c:366-460 | one uninterrupted send of any frame: the peer drops it or gets, byte by byte, the frame padded with zeros to 60, the last bit of the third byte of both addresses flipped, and a header a receiver accepts if it is one; pool and older queued packets as before, counters as the length says |
| IpHeader.RewriteIsAccepted | snull/snull.c:390-399 | every rewritten header, of whatever length and content, sums to all ones for a receiver that adds word by word with end-around carry |
| IpHeader.ReceiverSumIsFolded | snull/snull.c:399 | adding the carries at once, as RFC 1071 section 1 defines the sum, or at the end, as the checksum routine does, comes to the same for any words |
| IpHeader.CrossingTwice | snull/snull.c:394-399 | crossing twice restores all but the checksum, and that exactly when it was right |
| IpHeader.CrossingOnce | snull/snull.c:390-399 | whatever the frame holds, crossing once changes the third byte of both addresses in its last bit, and nothing else but the checksum |
| BlockingOpen.OwnedStep | scull/access.c:128-164 | the count is the number of opens held and every holder matches the owner or is capable, whatever the step |
| BlockingOpen.ServedStep | scull/access.c:119-164 | an eligible opener asleep without a wake-up means that a releaser is still about to send one, even if the owner changed |
| BlockingOpen.RunKeepsInv | scull/access.c:68-164 | both after every run, with signals, spurious wake-ups and non-blocking opens |
| BlockingOpen.WaitersHaveReason | scull/access.c:128-164 | once no wake-up is under way, a waiter is waiting for a holder that does not match it |
| BlockingOpen.OpenerMustLookAgain | scull/access.c:133-137 | a run in which the release and its wake-up fall between the dropping of the spin lock and the joining of the queue: asleep there the opener would be lost, and looking again it goes on |
| BlockingOpen.OwnerChangesWhenFree | scull/access.c:141-142 | the owner changes only at an open that finds the device free, and is then the opener |
| BlockingOpen.OpensExactly | scull/access.c:119-144 | in every reachable state who takes the spin lock gets the device exactly when nobody has it, it is owned by the opener's uid or euid, or the opener is capable, with the owner that follows; otherwise EAGAIN or waiting |
| BlockingOpen.OpenEndsExactly | scull/access.c:131-151 | an open ends exactly on a signal while it waits, with EAGAIN, or with the device; without the device it changes neither count nor owner, and one that may wait may do so again |
| BlockingOpen.OpenerGetsThrough | scull/access.c:131-146 | once the device is free or its own, an opener from wherever it waits has it after a stated number of its own steps |
| SingleOpen.AtMostOneHolder | scull/access.c:28-49 | in every interleaving of the two halves of an open: one holder at most, available = 1 - holders - openers yet to increment, and 1 exactly when free if no open is half done |
| SingleOpen.HolderExactly | scull/access.c:31-35 | in every reachable state an open succeeds exactly when nobody holds the device or is still to increment |
| SingleOpen.OpensAreUndone | scull/access.c:28-99 | an open that fails undoes itself, a close undoes an open, and for `sculluid` all but the owner |
| SingleOpen.GuestExactly | scull/access.c:68-84 | in every reachable state a `sculluid` open succeeds exactly when there is no other, it is owned by the opener's uid or euid, or the opener is capable, whatever the counter says |
| SingleOpen.RunExclusiveExactly | scull/access.c:68-91 | with `sculluid` opens of the same device, admitted by its own owner test, all states of a run are exclusive exactly when no open joined an open device |
| SingleOpen.GuestJoinsHolder | scull/access.c:70 | two processes holding the single-open device |
| PrivateDevices.KeysOf | scull/access.c:194-197 | the list, searched from its head, is a map from terminal to device |
| PrivateDevices.PrivateDevices.LookFor | scull/access.c:190-213 | terminates; a known terminal gets its device again, a new one a fresh empty device with the global quantum and set size, shared with no other, and a failed allocation changes nothing |
| PrivateDevices.SameDeviceExactly | scull/access.c:190-213 | in every history of lookups, two that succeed return the same device exactly when they were for the same terminal |
| PrivateDevices.PrivateDevices.Cleanup | scull/access.c:329-333 | takes every item off the list and frees it, no item and no device twice |
| SbullDisk.SegmentsAreOneSplice | sbull/sbull.c:67-81 | segments that fit put all their bytes on the disk, end to end from the starting sector on, and every other byte is the old one |
| SbullDisk.PayloadAt | sbull/sbull.c:108-113 | where each byte of each segment comes to lie |
| SbullDisk.FittingSegmentsLand | sbull/sbull.c:73-78 | for every start and length, byte by byte: those of the segments that fit lie end to end from the starting sector on, every other one is the old one, also behind the first segment that reaches past the end |
| SbullDisk.HowManyFit | sbull/sbull.c:73-76 | every list of segments has such a front part |
| SbullDisk.ReadIsOneSlice | sbull/sbull.c:79-80 | a read that fits fills the buffers, end to end, with the bytes of the disk |
| SbullDisk.SegmentsRead | sbull/sbull.c:73-80 | each segment's buffer gets the bytes of its own sectors, or nothing if they reach past the end, whatever the others do |
| SbullDisk.WriteThenRead | sbull/sbull.c:67-81 | a request written and read back gives its bytes |
| SbullDisk.LengthsAgreeExactly | sbull/sbull.c:108-114 | the loop as written makes the right transfers exactly when all segments are as long as the first |
| SbullDisk.UnevenBio | sbull/sbull.c:111 | a bio for which it reads past a buffer |
| SbullDisk.ThreePathsAgree | sbull/sbull.c:102-160 | going through the bios makes the transfers of going through all segments in a row |
| SbullDisk.QueuesAgree | sbull/sbull.c:84-160 | for every queue the simple, the full and the queue-less path leave the same image and fill the same buffers with the same bytes |
| SbullDisk.RequestDone | sbull/sbull.c:84-99 | what one request leaves: nothing if it is not of the file system, its bytes on the disk if it is a write, one answer for each segment if it is a read |
| SbullDisk.QueueInOrder | sbull/sbull.c:88-98 | a queue does what its requests do one after the other |
| SbullDisk.SbullDev.Transfer | sbull/sbull.c:67-81 | byte by byte: a write that fits puts the buffer's bytes at its sectors and leaves every other byte, a read that fits fetches the bytes of its sectors and changes none, and one that reaches past the end does neither |
| SbullDisk.SbullDev.SimpleRequests | sbull/sbull.c:84-99 | the loop over the queue, segment by segment, terminates with that path's image and bytes |
| SbullDisk.SbullDev.XferBio | sbull/sbull.c:102-116 | the loop over the segments of a bio does their transfers in order |
| SbullDisk.SbullDev.XferRequest | sbull/sbull.c:119-128 | likewise over the bios, and reports all sectors of the request |
| SbullDisk.SbullDev.FullRequests | sbull/sbull.c:131-149 | the loop over the queue, request by request, terminates with that path's image and bytes |
| SbullMedia.NoChangeUnderUsers | sbull/sbull.c:163-222 | in every reachable state the user count is right and a user means no pending change of medium |
| SbullMedia.WritersAreUsers | sbull/sbull.c:163-222 | in every reachable state whoever may write is a user, and no change of medium is about to wipe what is written |
| SbullMedia.HeldContentsSafe | sbull/sbull.c:163-222 | while a process keeps the device open, only writes change the contents, whatever the others and the timer do |
| SbullMedia.ChangeHasCause | sbull/sbull.c:212-222 | a pending change of medium goes back to an invalidation that found no users, and there have been none since |
| SbullMedia.LossHasCause | sbull/sbull.c:200-209 | any change of the contents but a write is a wipe by an open, after such an invalidation |
| SbullMedia.NextOpenWipes | sbull/sbull.c:163-222 | and after an invalidation that finds no users, every byte is zero for the next opener, however long that takes |
| SbullMedia.PendingHasCause | sbull/sbull.c:177-190 | in every run a pending timer goes back to the close of the last user, with no expiry and no open since |
| SbullMedia.LastCloseStartsTimer | sbull/sbull.c:184-222 | and that close starts it, to run until it expires or an open deletes it; when it expires the handler runs, and takes the medium out if there is still no user |
| SbullMedia.DeletionWaits | sbull/sbull.c:167 | in every run an open deletes the timer only when every expiry so far has had its invalidation |
| SbullMedia.TimerUnderUser | sbull/sbull.c:167-173 | a run that leaves a timer pending under a user, whose close then adds a pending timer again |
| TinyProc.Fill | tty/tiny_tty.c:344-360 | after the loop the page holds the text from `begin` on, `begin` is at most the offset, and the end of the window, of the text or of the page is reached; a roomy page is never overrun |
| TinyProc.ReadProc | tty/tiny_tty.c:340-367 | for every table, offset, count and page size the window is, to the length, the slice at the offset of the text up to the port where the loop stopped; in a roomy page that is the slice of the whole text, and `eof` is right exactly except with no port open |
| TinyProc.PrintoutNamesPorts | tty/tiny_tty.c:353 | read back as decimal numbers, the lines name exactly the open ports, each once, in ascending order |
| TinyProc.EndReportedEarly | tty/tiny_tty.c:361 | a read of ten bytes with no port open sets `eof` with 18 of the header unread |
| TinyProc.ShippedDriverIsRoomy | tty/tiny_tty.c:30 | the driver as built never meets the page limit |
| TinyProc.ReadsReassemble | tty/tiny_tty.c:362-366 | results as `ReadProc` promises them, for reads of any sizes, each from where the last ended, until one returns nothing, give the whole text |
| TinyProc.StoppingAtEof | tty/tiny_tty.c:361 | a caller that stops at `eof` has the whole text exactly when some port is open or its last read reached the end |
| TinyProc.ReadsEnd | tty/tiny_tty.c:362-366 | and that happens after no more reads than the text is long |

## Left out

- Integer widths: `int` sizes and positions are unbounded, except the unsigned subtraction of `scull/main.c:263`; `quantum * qset` does not overflow, and the sizes set by ioctl are taken to be positive.
- A pipe of size 0, a set of size 0 and what `kmalloc(0)` returns.
- PipeProtocol.RunExact: each unlocked look at `rp` and `wp` is one step, and an open resets both pointers in one step under the semaphore, so a torn view of the two pointers is not modelled.
- PipeProtocol: a release under way and freeing of the buffer are in PipeDevice only; `O_NONBLOCK` is ignored by writers, as in the code.
- PipeDevice and PipeProtocol: what a copy beyond the allocation does to other memory; a failed user copy is taken to touch none, so one that failed on its way past the end is not counted as having crossed it.
- Asynchronous notification (`fasync`), `select` queues, and the second half of `scull_p_poll` that registers waiters.
- `scull_llseek` and `sculld_llseek`, ioctl decoding and capability checks: one branch each; their effects appear as arbitrary positions and as `SetGlobal`.
- SculldStore: values, not a linked structure in memory, so aliasing and update in place are not covered there (ScullDevice covers them for scull); an access outside a block, or through an item that could not be allocated (`sculld/main.c:71-72`), ends the call as `Wild` and what it does to other memory is not modelled; mappings (`vmas`) are always absent.
- ScullDevice.ScullDev.Trim: freed memory is listed, not made inaccessible.
- SnullNet: ending a poll and enabling interrupts (`snull/snull.c:285-286`) are one step, as is an interrupt handler; transmit interrupts, the shared status word and its lost updates, the statistics, the simulated lockup, `snull_tx_timeout` and `snull_open` or `snull_release` during traffic; the packets of a device in transit belong to one queue each.
- SnullDevice.Tx: the frame fits a packet; what the kernel's checksum routine returns for something that is not a whole IP header of at least 20 bytes is a parameter; both calls run to their end without interleaving. The NAPI interrupt of a send is in SnullNet only.
- SnullDevice.Poll: what the network stack does with a delivered packet.
- IpHeader: byte order of the machine; words are taken in network order, and RFC 1071 section 1 makes the sum independent of it.
- BlockingOpen: an unlocked look at count and owner (`scull/access.c:136`) is one step; a pending signal is noticed where a process waits.
- BlockingOpen, SingleOpen: processes keep their uid, euid and capability during a run; the trim done by a write-only open after the lock is dropped is StoreRuns' `TrimCall`.
- PrivateDevices.PrivateDevices.Cleanup: the trim of each device (`scull/access.c:331`) is `ScullDev.Trim`; a terminal without a controlling tty is refused before the lookup.
- SbullDisk: segment buffers are values, so two segments sharing memory are not modelled; a request's bios are not empty and lie end to end, as the block layer makes them; error codes of non-file-system requests.
- SbullMedia: sleeping under the spin lock in `check_disk_change`, and what the kernel does on `add_timer` of a pending timer.
- TinyProc.ReadProc: what a line printed past the page (`spilled`, only in a page that is not roomy) does to other memory; the memory behind the page is part of the array there.
- `scullc`, `usb`, `lddbus`, `jit`, `hello_world`, debug dumps, the rest of the tty driver, and module setup: no further algorithm.
