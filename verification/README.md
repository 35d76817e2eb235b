# AxVM: device data plane, locking and boot structures

AxVM is a KVM virtual machine monitor. This project models the parts of it that touch guest
memory and shared state, and proves what they promise:

- the **block device**: a drain loop over a split virtqueue (VirtIO 1.2 sections 2.7.5, 2.7.6 and
  2.7.8) that walks descriptor chains in guest memory with a phase machine, moves bytes between
  memory and disk, and publishes used elements (section 5.2.6 for the requests);
- the **network device**: another queue engine, with one cursor for both rings, a receive that
  prepends a 12-byte header and a transmit that strips it, and a register file with a queue
  selector and resets (section 4.2.2);
- **vCPU threads**: any number of them notifying devices under nested locks;
- **boot structures**: ACPI tables, the long-mode page tables, and the layout of kernel, command
  line, zero page and descriptor tables.

## How it is built

Guest memory is the class `GuestMemory` over a mutable byte array; the devices are the classes
`VirtioBlock`, `VirtioNet` and `VirtQueue` with the source's fields, and their methods have the
source's loops and writes. Each method is proved equal to a function on values (`Drain`,
`TxDrain`, `RxOne`, `WriteReg`, `Loaded`, ...), and the theorems are about those functions. The
table lists both: rows for methods say which function the loop computes, rows for lemmas what
that means. The theorems at the end of each line of argument do without the functions: they speak
of bytes at numbered offsets and of histories (`SequentialByBytes`, `AnswerInBytes`,
`RegisterNotifyServes`, `FirstNotifyServes`, `ReceiveWrites`, `ReadsFollowHistory`, `GuestFinds`).

| file | contents |
|---|---|
| Bytes.dfy, GuestMemory.dfy, Registers.dfy | little-endian words, regions, stores; guest RAM; register halves and bits |
| Ring.dfy | the split ring as a first-in first-out channel, shared by both devices |
| BlockQueue.dfy, VirtioBlock.dfy | the block engine as functions, and as the device's methods |
| BlockChain.dfy, BlockFootprint.dfy | when a walk ends and what it reads; which bytes a drain can change |
| BlockRefinement.dfy, BlockBytes.dfy | refinement of a sequential disk server; the same in bytes of memory and disk |
| BlockService.dfy, BlockExample.dfy | the notify register from any reachable channel state; on a concrete queue |
| BlockProtocol.dfy | driver and N notifying threads as a state machine |
| BlockRegisters.dfy, NetRegisters.dfy | the devices against the history of register writes, notifies, receives and transmits |
| NetQueue.dfy, VirtioNet.dfy | the network engine as functions, and as the device's methods |
| NetTransmit.dfy, NetRuns.dfy, NetFraming.dfy | transmit drain, whole runs of both queues, frame round trip |
| Locks.dfy | lock scopes of the run loop, deadlock freedom |
| Paging.dfy, Acpi.dfy, Loader.dfy, BootLayout.dfy | page tables and page walk, table builder and reader, image loader, composition |

Assumptions that hold throughout:

- Bound checks are made with 64-bit sums (`Passes`). They tell an access inside memory from one
  outside exactly when the sum does not wrap to something the check lets through
  (`PassesIffInside`); an access where it does writes outside guest RAM, or panics where
  overflow checks are compiled in. So the methods ask that the sums they form do not wrap:
  `QueueFits` for ring and table addresses, `DrainFits`, `TxFits` and `RxFits` for the buffers
  they come to. For requests laid out inside memory that is proved (`NotifyIsReady`).
- The sector-to-byte product wraps modulo 2^64, the used length modulo 2^32, and offsets from 2^63
  on cannot be seeked to. Strings and files are at most 2^63 - 1 bytes, as Rust's allocations are.
- The disk is a byte sequence, or missing. Reads return everything available up to the length;
  writes past the end leave zeros. The TAP is a queue of waiting frames and a log of frames
  offered to it, whose acceptance is its own choice.
- A walk that comes back to a descriptor never ends in the source. `Chain` is undefined exactly
  then (`WalkEndsIffChain`), and the methods ask for a defined drain.
- The transmit loop repeats one turn for ever at a used slot outside memory, and sends the same
  frame every time (`TxStuck`). The transmit method asks for a loop that ends; which ones do is
  `TxEndsIff`. A ready queue of size zero divides by zero in the source, so ready queues have a
  size.

Where the code and its surroundings disagree, the model follows the code:

- A block reset leaves queue addresses, size and interrupt status as they were
  (`QueueFollowsTrace`, `StatusFollowsTrace`); a network reset clears both queues.
- The memory map announces RAM up to 0x9FC00, but the loader accepts command lines that end above
  it; from 0xC0000 bytes on they also lie over the ACPI tables. `MemoryMap` gives the exact length
  for the first, `TablesSurviveIff` and `SameBytesIff` the exact lines that spare the tables.
- The boot path sets up 32-bit protected mode; the long-mode tables are built by
  `setup_long_mode_with_entry`, which the start-up code does not call.

## Model

| member | source | states |
|---|---|---|
| Memory.PassesIffInside | axvm_core/src/memory.rs:85-96 | the 64-bit bound check agrees with the true bound exactly when the sum does not wrap to a value it accepts; one byte at address 2^64 - 1 passes it in every memory |
| Memory.GuestMemory.WriteSlice | axvm_core/src/memory.rs:84-93 | wherever the wrapping check agrees with the bound, a slice write succeeds exactly when it fits, and then changes those bytes and no others |
| Memory.GuestMemory.ReadSlice | axvm_core/src/memory.rs:95-103 | wherever the wrapping check agrees with the bound, a read returns the current bytes exactly when they are inside |
| Memory.GuestMemory.WriteU64 | axvm_core/src/memory.rs:119-121 | a little-endian word reads back as the value written |
| Ring.SlotsSurviveWrapIff | axvm_core/src/virtio.rs:251 | ring positions taken from a wrapping 16-bit cursor are those of the unbounded count, at every count, exactly when the queue size divides 65536 |
| Ring.FillStages | axvm_core/src/virtio.rs:250-254 | filling the next slot while fewer than size heads are outstanding leaves the channel that memory and cursor represent as it was, with the head staged behind it |
| Ring.AdvanceAppends | axvm_core/src/virtio.rs:241-254 | advancing the available index then appends the staged head to the channel |
| Ring.PublishAppends | axvm_core/src/virtio.rs:241-254 | the two stores together append to the channel |
| Ring.PutStages | axvm_core/src/virtio.rs:260-267 | storing a used element for the oldest pending head overwrites no uncollected element and is not yet seen as completed |
| Ring.BumpAppends | axvm_core/src/virtio.rs:268-270 | moving the used index then logs that element |
| Ring.OldestPending | axvm_core/src/virtio.rs:250-254 | the cursor differs from the available index exactly when something is pending, and then its slot holds the oldest pending head |
| Ring.ChannelBytes | axvm_core/src/virtio.rs:241-268 | the channel in bytes: indices at offset 2, entry k at 4 + 2(k mod size), element k at 4 + 8(k mod size), little-endian |
| Ring.CompleteAppends | axvm_core/src/virtio.rs:260-270 | element and index together, as the network engine stores them: completing the oldest pending head logs its id and overwrites no uncollected element |
| Ring.OldestUncollected | axvm_core/src/virtio.rs:260-268 | a driver comparing its own wrapping cursor with the used index finds the oldest uncollected element, if any |
| BlockChain.WalkEndsIffChain | axvm_core/src/virtio.rs:292-334 | the unbounded walk loop ends exactly when no descriptor index comes twice |
| VirtioBlockDevice.VirtioBlock.WalkChain | axvm_core/src/virtio.rs:281-334 | the phase loop visits each descriptor once and finds header, last continued descriptor and final status as the direct reading of the chain by position does |
| VirtioBlockDevice.VirtioBlock.ProcessDescriptorChain | axvm_core/src/virtio.rs:281-366 | walk, transfer and status together are the answer to that request |
| VirtioBlockDevice.VirtioBlock.ProcessQueue | axvm_core/src/virtio.rs:230-279 | the drain loop computes the recursive drain; it asks for the interrupt exactly when the cursor moved |
| VirtioBlockDevice.VirtioBlock.Write | axvm_core/src/virtio.rs:175-224 | a register write of four bytes or more is the register step function, shorter ones change nothing |
| BlockQueue.DrainCursor | axvm_core/src/virtio.rs:250-278 | the drain moves the cursor by the number of requests served, stops at the target or at a slot outside memory, and moved at all exactly when it served one |
| BlockChain.WellFormedReads | axvm_core/src/virtio.rs:281-334 | a header, data, status chain of three descriptors ends and reads as exactly that request |
| BlockBytes.PathReads | axvm_core/src/virtio.rs:281-334 | a chain of any length with different indices ends and reads as header type and sector at offsets 0 and 8 of the first buffer, the last buffer but one as data, the last as status |
| BlockBytes.RequestInBytes | axvm_core/src/virtio.rs:281-334 | the request of a well-formed chain from the words of its three table entries and its header |
| BlockBytes.AnswerInBytes | axvm_core/src/virtio.rs:337-365 | every request, complete or not, byte by byte: which bytes of disk and memory change and to what, when the transfer is skipped, and the length, which counts a read that did not fit |
| BlockChain.WrittenIsCounted | axvm_core/src/virtio.rs:337-365 | for a well-formed request the returned length is the number of bytes written to guest memory, as 32 bits hold it |
| BlockFootprint.DrainConfined | axvm_core/src/virtio.rs:250-272 | whatever memory holds, as long as the walks end and none of their 64-bit address sums wraps, a byte outside the used ring and outside the walked status bytes and read buffers keeps its value over the whole drain |
| BlockFootprint.RegionSpared | axvm_core/src/virtio.rs:257-268 | so, under the same conditions, a disjoint region, such as the available ring or the descriptor table, is unchanged |
| BlockRefinement.DrainServesInOrder | axvm_core/src/virtio.rs:230-366 | over a batch of well-formed, compatible requests the drain ends, the disk is the fold of the operations in ring order, every read buffer holds the disk as of its place, statuses are OK, nothing else changes |
| BlockBytes.SequentialByBytes | axvm_core/src/virtio.rs:230-366 | that outcome in bytes: disk byte p is from the buffer of the last store with 512 sector <= p < 512 sector + length, or as it was, or zero in a hole; every byte of a read buffer is the disk byte of its place as of its turn, and unchanged past the end of the disk |
| BlockBytes.ReadsOwnSectors | axvm_core/src/virtio.rs:337-357 | a read that no earlier store of the batch overlaps gets the bytes from 512 sector on |
| BlockBytes.OtherSectorsKept | axvm_core/src/virtio.rs:337-357 | a disk byte no store of the batch covers keeps its value |
| BlockRefinement.ReadsBack | axvm_core/src/virtio.rs:337-357 | on the sequential server a read inside an earlier write, not overwritten since, returns the written bytes |
| BlockRefinement.BatchReadsBack | axvm_core/src/virtio.rs:230-366 | in guest memory: a read request after a write request of the same sectors ends up with the write buffer's bytes |
| BlockRefinement.BatchRest | axvm_core/src/virtio.rs:250-272 | serving the first request of a batch leaves the others asking for the same thing with the same data |
| BlockRefinement.BatchFits | axvm_core/src/virtio.rs:230-366 | no address sum of the drain of such a batch wraps, if those of the queue registers do not |
| BlockService.NotifyServesPublished | axvm_core/src/virtio.rs:230-279 | from any state that represents the channel, the drain to the available index serves exactly the published and uncompleted heads, in order, as the sequential server would, and leaves the channel with nothing pending and one more used element for each of them, whose length is the bytes the disk had as of its place plus the status |
| BlockService.RegisterNotifyServes | axvm_core/src/virtio.rs:175-279 | one write to the notify register of a ready queue does all of it before it returns: cursor, disk, buffers and statuses (in bytes too), channel, interrupt answer and interrupt status |
| BlockService.ReachableNotifyServes | axvm_core/src/virtio.rs:175-279 | in particular with guest memory and device as they are at every point of every run of driver and N threads |
| BlockService.BatchAllSound | axvm_core/src/virtio.rs:250-272 | what the pending requests are when a drain starts makes every chain it comes to sound |
| BlockService.NotifyIsReady | axvm_core/src/virtio.rs:230-279 | in such a state the drain of a notify ends and none of its address sums wraps, so the method may be called |
| BlockExample.CopiesThroughDisk | axvm_core/src/virtio.rs:230-366 | the layout rules can be met: on a concrete queue with the cursor at 65535 a drain copies a buffer through the disk, whatever the disk held |
| BlockExample.NotifyMovesSectorSeven | axvm_core/src/virtio.rs:175-366 | a concrete notify stores a buffer in disk bytes 3584 to 4095, changes no other, and reads them back |
| BlockProtocol.ServeAppends | axvm_core/src/virtio.rs:250-271 | one turn of the drain completes exactly the oldest pending head and keeps the channel |
| BlockProtocol.InvNext | axvm_core/src/main.rs:122-138 | every step keeps the channel, the exclusion by the guest-memory lock, the snapshots between completed and published, and each turn under way on the oldest pending head: driver stores of slot and index, and a thread's head read, answer, element store and index store, in any interleaving |
| BlockProtocol.TurnIsServe | axvm_core/src/virtio.rs:250-271 | the steps of a turn with nothing between them are one turn of the drain function |
| BlockProtocol.ExactlyOnce | axvm_core/src/virtio.rs:241-272 | in every state of every run, what the driver collected is a prefix of what was completed, whose ids are a prefix of what was published, and uncollected and pending entries are intact in their slots |
| BlockProtocol.NeverOvertakes | axvm_core/src/virtio.rs:241-250 | the 16-bit indices are the unbounded counts modulo 65536 and the cursor is behind the available index by exactly what is pending |
| BlockProtocol.NotifyCompletes | axvm_core/src/main.rs:122-138 | a draining thread has exactly the distance to its snapshot left, finds the oldest pending head at every turn, and stops exactly when all that was published before its index read is completed |
| BlockProtocol.StaleSnapshotRunsAway | axvm_core/src/virtio.rs:241-271 | a drain towards an index n behind the cursor, if it ends, has answered 65536 - n chains, more than are pending |
| BlockProtocol.DrainCompletes | axvm_core/src/virtio.rs:230-272 | an uninterrupted drain to an index, over chains that are sound when it comes to them, ends and completes exactly the heads up to it, in order |
| BlockRegisters.InterruptIffServed | axvm_core/src/virtio.rs:192-194 | a register write returns true exactly when it is a notify that served at least one request |
| BlockRegisters.StatusFollowsTrace | axvm_core/src/virtio.rs:195-203 | after any writes, interrupt status bit 0 is set exactly when the latest completing notify or bit-0 acknowledgement was a notify, resets included |
| BlockRegisters.QueueFollowsTrace | axvm_core/src/virtio.rs:189-224 | after any writes, addresses are the last low and high halves written in either order, size the last written, ready the last since a reset |
| BlockRegisters.OnlyNotifyTransfers | axvm_core/src/virtio.rs:183-221 | a write to any other register changes neither memory nor disk and asks for no interrupt |
| BlockRegisters.CursorCountsServed | axvm_core/src/virtio.rs:195-279 | after any writes the cursor is, modulo 65536, the number of requests served since the last reset |
| BlockRegisters.ResetStartsChannel | axvm_core/src/virtio.rs:197-203 | a device that has served nothing since its last reset finds an empty channel in initialised rings, whatever came before |
| BlockRegisters.FirstNotifyServes | axvm_core/src/virtio.rs:197-279 | and its next notify serves exactly what is published on them |
| VirtioNetDevice.VirtQueue.GetAvailDescIdx | axvm_core/src/virtio_net.rs:95-113 | the next head, read with a fresh available index |
| VirtioNetDevice.VirtQueue.ReadDescriptor | axvm_core/src/virtio_net.rs:115-124 | the descriptor at an index, if it is in memory |
| VirtioNetDevice.VirtQueue.AddUsed | axvm_core/src/virtio_net.rs:126-150 | a completion stores element and index and moves the one cursor, or gives up as a whole when the slot is outside memory |
| VirtioNetDevice.VirtioNet.ProcessRx | axvm_core/src/virtio_net.rs:387-451 | one receive is the receive function; the interrupt bit is set exactly when a frame was delivered |
| VirtioNetDevice.VirtioNet.ProcessTx | axvm_core/src/virtio_net.rs:457-504 | whenever the loop ends it stops where its turns do, which for separate rings is the recursive transmit drain; it reports work exactly when the TAP accepted a frame |
| NetQueue.TxProgress | axvm_core/src/virtio_net.rs:470-498 | the available index stays put, and a turn brings the cursor one closer to it, or, at a used slot outside memory, changes neither queue nor memory |
| NetQueue.TxStuck | axvm_core/src/virtio_net.rs:126-132 | from a used slot outside memory the loop makes any number of turns, leaves queue and memory as they were, and offers the same frame every time |
| NetQueue.EndsIffDrain | axvm_core/src/virtio_net.rs:470-498 | the recursive drain is defined exactly when some number of turns is the last, and is where they stop |
| NetTransmit.TxEndsIff | axvm_core/src/virtio_net.rs:470-498 | for pending heads whose descriptors and buffers are off the used ring, the loop ends exactly when the used slot of every readable one is inside memory |
| NetTransmit.ShortRingEnds | axvm_core/src/virtio_net.rs:470-498 | on a concrete ring whose second used slot is outside memory the loop ends with one head pending and never with two |
| NetTransmit.DrainOffersFrames | axvm_core/src/virtio_net.rs:457-504 | the transmit drain, where it ends, consumes the pending heads in order up to the first unreadable descriptor, offers exactly the bytes after the header of each in-range longer descriptor as memory held them at the start, and changes only the used ring |
| NetTransmit.PendingRest | axvm_core/src/virtio_net.rs:472-494 | completing one buffer in an in-bounds slot leaves the other pending buffers and their frames as they were |
| NetRuns.AddUsedCompletes | axvm_core/src/virtio_net.rs:126-150 | a completion in bounds puts the element in the cursor's slot, advances the used index by one and changes nothing else |
| NetRuns.InvNext | axvm_core/src/virtio_net.rs:387-504 | every step of TAP, device and driver, whose slot and index stores are separate, keeps both channels and the conservation of frames |
| NetRuns.OneCursorServesBothRings | axvm_core/src/virtio_net.rs:95-150 | in every state of every run, on both queues, used.idx in memory is the device's one cursor and the k-th element sits at the ring position of its available entry with that entry's head |
| NetRuns.DeliveryInOrder | axvm_core/src/virtio_net.rs:387-437 | over every run frames are taken in arrival order, delivered frames are exactly the taken ones their buffer could hold, and receive element k carries the length of delivered frame k plus 12 |
| NetRuns.ReceiveWrites | axvm_core/src/virtio_net.rs:396-436 | a receive from the logs: with no posted buffer, an unreadable descriptor or an empty TAP it changes nothing; otherwise it takes one frame, whole up to 1514 bytes, for the oldest posted head; if it does not fit behind 12 bytes of header, memory and queue stay; if it does, header, frame and an element naming that head are stored and no other byte changes |
| NetRuns.ReachableTransmitsPublished | axvm_core/src/virtio_net.rs:470-502 | from any reachable state the transmit loop ends and offers the frames of the published, uncompleted heads in order |
| NetFraming.ReceivedFrameIsSentBack | axvm_core/src/virtio_net.rs:409-482 | a received buffer published again with its used length makes the transmit loop offer exactly the frame received, in the place of its head among the frames of the other pending heads |
| VirtioNetDevice.VirtioNet.Write | axvm_core/src/virtio_net.rs:240-385 | writes of 1, 2 and 4 bytes are the register step function, other widths are refused and change nothing |
| VirtioNetDevice.VirtioNet.Read | axvm_core/src/virtio_net.rs:190-238 | byte i of a read at a MAC offset is the MAC byte i further on and zero past its end, for every width; bytes past the eighth are untouched |
| VirtioNetDevice.VirtioNet.ConfigValue | axvm_core/src/virtio_net.rs:223-230 | the shift-and-or loop yields the word whose little-endian bytes are that part of the MAC |
| NetRegisters.QueuesFollowHistory | axvm_core/src/virtio_net.rs:268-504 | after any writes, receives and transmits each queue is what was last written to it, half by half, while it was selected since the last reset, and its cursor counts the buffers completed since then |
| NetRegisters.StatusFollowsHistory | axvm_core/src/virtio_net.rs:355-367 | interrupt status bit 0 is set exactly when the latest of delivering receives, completing transmits and bit-0 acknowledgements was not an acknowledgement, resets included; status is what was last written |
| NetRegisters.ReadsFollowHistory | axvm_core/src/virtio_net.rs:190-234 | every register read outside the MAC window, by offset, from that history |
| NetRegisters.WriteWidths | axvm_core/src/virtio_net.rs:240-246 | a write of 1, 2 or 4 bytes has its little-endian value, other widths none |
| Locks.TurnOrdered | axvm_core/src/main.rs:69-179 | every turn of the run loop acquires locks in ascending order |
| Locks.InvStep | axvm_core/src/main.rs:60-206 | every thread step keeps mutual exclusion, the order and the nesting |
| Locks.NotifyHoldsMemory | axvm_core/src/main.rs:123-138 | in every reachable state a thread with the block cursor or disk lock holds guest memory, so no other thread is in a notify; TAP and queue locks are held under the network device |
| Locks.NoWaitCycle | axvm_core/src/main.rs:60-206 | in every reachable state of any number of threads no chain of waiting threads closes |
| Locks.ChainReachesStep | axvm_core/src/main.rs:60-206 | following who waits for whom always leads to a thread that can step |
| Locks.NoDeadlock | axvm_core/src/main.rs:60-206 | some thread can always step |
| Paging.SetupPageTables | axvm_core/src/vcpu.rs:250-266 | the loop writes one entry in each upper table and 512 present writable 2 MiB entries, and touches nothing else |
| Paging.TablesMapIdentity | axvm_core/src/vcpu.rs:250-266 | the processor's four-level walk maps every address below 1 GiB to itself, writable, and finds nothing at any other lower-half address |
| Paging.SetupLongMode | axvm_core/src/vcpu.rs:61-70 | tables and descriptor table together, on zeroed memory, give that translation |
| Paging.SetupGdt | axvm_core/src/vcpu.rs:112-128 | the three descriptors read back and nothing else changes |
| Paging.SegmentsAreFlat | axvm_core/src/vcpu.rs:112-128 | decoded as the processor does, the protected-mode code and data segments are flat, present, 32-bit and 4 GiB; the long-mode code segment is a 64-bit one |
| Acpi.SealedSumsToZero | axvm_core/src/acpi.rs:60-62 | storing the checksum in a zero byte makes the table sum to zero modulo 256 |
| Acpi.BuildMadt | axvm_core/src/acpi.rs:70-96 | the in-place builder, with its loop over the vCPUs, yields the specified table |
| Acpi.SetupAcpi | axvm_core/src/acpi.rs:65-143 | the three tables fit exactly when memory reaches their end, and each reads back after all writes |
| Acpi.ReaderFindsProcessors | axvm_core/src/acpi.rs:65-143 | for every vCPU count a reader that follows RSDP, RSDT and MADT, checking signatures, lengths and checksums, recovers the Local APIC address, the flags and exactly the processor and APIC ids 0 to count-1 |
| Loader.LoadLinux | axvm_core/src/loader.rs:72-237 | loading succeeds exactly for an image that fits, and leaves memory and entry point as specified, for command lines of every length a string can have |
| Loader.ZeroPageReads | axvm_core/src/loader.rs:85-175 | the zero page reads back, at the offsets of the boot protocol, the two memory ranges, loader type, command line place and size (32 bits of it), load flags, and otherwise the image's own header |
| BootLayout.Boot | axvm_core/src/main.rs:310-340 | after the whole sequence every region reads back what was written to it, the ACPI tables wherever the command line does not lie over them; 0x100000 on holds the image from byte 512 (setup sectors + 1) on, zero sectors meaning four; the entry is the word at 0x214, or 0x100000 if that is zero |
| BootLayout.GuestFinds | axvm_core/src/main.rs:310-340 | what the guest finds by absolute address: boot parameters at 0x7000, three descriptors at 0x4000, command line at 0x20000, code at 0x100000 |
| BootLayout.MemoryMap | axvm_core/src/loader.rs:122-138 | the memory map is disjoint, inside RAM, holds kernel, zero page and GDT, excludes the ACPI tables for every vCPU count, and holds the command line exactly when it is shorter than 0x7FC00 bytes |
| BootLayout.TablesSurviveIff | axvm_core/src/loader.rs:146-160 | after the whole sequence the tables are as installed exactly when the command line has their bytes wherever it lies over them, and then the processors can be read back; a line that spoils the root pointer's signature leaves nothing to read, so of the lines whose overlap is not a piece of that signature exactly those ending below the tables keep them readable |
| BootLayout.SameBytesIff | axvm_core/src/loader.rs:146-160 | a line without zero bytes has the tables' bytes exactly when it ends below them, or at the root pointer's revision byte with that pointer's first 15 bytes |

## Left out

- KVM calls, memory mapping, file and TAP system calls, thread creation, signals and IRQ lines: foreign calls; their effects are parameters, logs or the assumptions above.
- Register loading for the vCPUs, metrics, errors, configuration parsing, the serial console: constants, counters and text.
- Block register reads: a table of constants and stored values.
- Feature negotiation: the bits are stored and never acted on.
- Block requests over several data descriptors: the source transfers only the last one, which `PathReads` states for chains of any length; the refinement is for one data descriptor.
- VirtioBlockDevice.VirtioBlock.ProcessQueue: does not model a walk that never ends; the drain must be defined.
- VirtioNetDevice.VirtioNet.ProcessTx: asks for a loop that ends; `TxEndsIff` and `TxStuck` say which do and what the others do.
- Memory.GuestMemory.WriteSlice: does not model the store of an access whose sum wraps past the check, because that store is not one to guest RAM.
- Memory.GuestMemory.ReadSlice: does not model such a read either, which returns bytes that are not guest RAM.
- BlockFootprint.DrainConfined: excludes address sums that wrap, for the same reason.
- BlockProtocol.InvNext: answering one chain, walk and transfer, is one step; guest writes to that chain while it is being walked are not interleaved.
- NetRuns.InvNext: a receive is one step, and so is a turn of the transmit loop.
- BlockProtocol.DrainCompletes: soundness is asked of each chain in the memory of its turn; `BatchAllSound` derives it from the requests pending at the start.
- BlockProtocol.ExactlyOnce: runs are between resets, with the queue set up and chains whose buffers keep off the rings.
- Weak memory ordering between vCPUs and device threads: steps are sequentially consistent.
- Locks poisoned by a panicking thread, and the console's own output lock.
