# Verification of vlbi-streamer

A Dafny 4.11 model of the hand-written logic of vlbi-streamer, the program that records high-rate VLBI packet
streams to many disks and replays them. `dafny verify dfyconfig.toml` checks everything.

## What is modelled

**Recording from UDP.** `Headers` has the UDPMON and MARK5BNET packet headers byte by byte and the hole filler.
`Window` says what resequencing means: a recording is cut into files of N consecutive numbers, the current file is
open, the one before it may hang for late packets. `WindowProofs` proves what every run of it keeps and promises.
`Resequencer` is the receiver as written: buffers as arrays, a staging slot, byte counters, a receive position kept as a
counter and as a place in the buffer. `Refinement` proves that it does what the window says. `FileIndex` is the packet
count that tells the filler how far to go, `LastFile` the file that is written short, `NumberRange` the range of packet
numbers, and `EndToEnd` follows the packets through the filler to disk.

**Sharing buffers and disks.** `EntityLists` and `ResourceBranch` have the intrusive doubly linked lists of a resource
branch in the heap, `Tickets` the wrapping ticket counters that pass an entity from thread to thread, one atomic step
per section under a lock.

**Several TCP connections.** `Multistream` is the arithmetic that deals packets to connections by remainders, in the
machine's unsigned arithmetic; `Striping` has the loops of the sending and receiving threads and the round trip.

**Writing.** `Drain` writes a buffer in chunks and starts over on another recorder when one fails; `SingleFile` records
into one file with the first bytes of every packet left out.

**Sizes, replay and the file system.** `Sizing` has the searches for buffer sizes, `Ring` the two threads that replay a
file, `NameTable` and `ReadSplit` the name table and the read of the FUSE file system.

## Main results

- The receiver with its pointers, counters and copies refines the resequencing window on every run, and so does the final
  flush: `Refinement.RunRefines`, `Refinement.FlushRefines`, `Resequencer.UdpReceiver`.
- Bounded disorder loses nothing, and what is on disk then, both ways: `WindowProofs.BoundedDisorderLosesNothing`,
  `EndToEnd.RecordingIsCompleteIff`, `EndToEnd.InOrderIsRecordedIff`.
- Conservation and exact counting on every run, whatever arrives: `WindowProofs.RunAccounts`,
  `WindowProofs.CountsAreOffByOverwrites`.
- What the hole filler makes of a recording, with the count it goes by: `EndToEnd.SlotsAreNumberedIff`,
  `EndToEnd.HolesHaveFirstHeader`, `EndToEnd.AllCoveredIff`, `EndToEnd.OrderlyIsCoveredIff`, `EndToEnd.HolesAreCounted`.
- One owner, first come first served, and exactly when a waiter is stranded, on every interleaving: `Tickets.OneOwner`,
  `Tickets.FirstComeFirstServed`, `Tickets.EverStrandedIff`.
- The intrusive lists stay proper chains under every operation: `EntityLists.ChangeBranch`,
  `EntityLists.RemoveFromBranch`, and the three lists of a branch together: `ResourceBranch.Branch.TryGetFree`,
  `ResourceBranch.Branch.Remove`.
- Merging several TCP streams undoes dealing a recording to them, with any buffer sizes on both sides, and fills as many
  buffers as there are packets for: `Striping.MergingUndoesDealing`, `Striping.MergingFillsAll`.
- When a buffer is drained whole and in order, for every list of recorders that could or could not be acquired:
  `Drain.DrainCoversIff`, `Drain.DoneIsCompleteIff`, `Drain.OnlyAcquiringIsRetried`.
- One file per recording without gaps, written in turn: `SingleFile.SingleFileIsTheRecording`, `SingleFile.RecordAll`,
  `SingleFile.OneFileAtATime`, `SingleFile.AllCanFinish`.
- The replay ring on every interleaving up to its end: `Ring.RunIsSafe`, `Ring.WhoWaits`, `Ring.ExtraIsRoomAsked`,
  `Ring.WholeRingIsSent`.
- The size searches find what there is to find: `Sizing.AlignElements`, `Sizing.CutIsToStep`,
  `Sizing.CalculateBufferSizes`.
- The name table and the split read of the file system: `NameTable.InsertAllIsExact`, `NameTable.LookupIsExact`,
  `ReadSplit.VbsRead`.

## What the code does not keep, exactly

- A late packet that repeats a number is counted again: a file can be handed over as complete with a hole in it. The
  counters are off by exactly the packets that overwrote another (`WindowProofs.CountsAreOffByOverwrites`).
- The last file is written only as far as packets were counted, so numbers 0 and 2 with four slots lose packet 2
  (`LastFile.LastPacketIsCutOff`). Without repeats and with disorder within one file, every packet received is on disk
  exactly when no number of the file open at the end is missing in front of the newest
  (`EndToEnd.RecordingIsCompleteIff`).
- A packet that runs ahead is copied after the buffer it was received into was left. That buffer has been handed over by
  then exactly when its file counts N packets (`Refinement.AheadReadsHeldIff`), which needs a repeat
  (`WindowProofs.FullEarlyIsOverwritten`): numbers 0, 1, 0 and 4 with three slots (`Resequencer.CopiedFromReleased`).
- The packet count in the file index is not raised when a packet runs ahead into the next file, and the filler goes by
  it. After numbers 0, 4 and 7 with three slots it is 2 for good: slot 2 of file 0 and all holes of files 1 and 2 keep
  what their buffers held (`FileIndex.AheadIsNotCounted`, `EndToEnd.AheadIsNeverVisited`). Files are gone through as far
  as they are written exactly when no file was opened early and the last one counts no repeats beyond its receive
  position (`EndToEnd.AllCoveredIff`); for streams without repeats and with disorder within one file, exactly when no
  packet belongs to a later file than is due (`EndToEnd.OrderlyIsCoveredIff`).
- Packet numbers are signed: of a stream that counts up in order exactly the packets after 2^31 - 1 (MARK5BNET) lie
  before the first one and are dropped (`NumberRange.LostIsBeyondRange`, `EndToEnd.InOrderIsRecordedIff`).
- With 32768 threads waiting for one entity two of them hold it at once; below that never (`Tickets.TooManyWaiters`,
  `Tickets.DrawIsSafeUnlessFull`).
- A thread is left waiting for an entity nobody has exactly when set_free misses it before it draws its ticket, or
  block_until_free frees the entity over it, or the holder or shutdown removes the entity from its branch, or it asks for
  a loaded entity by get_specific (`Tickets.EverStrandedIff`). A recorder is removed when a buffer cannot acquire it
  (`src/simplebuffer.c:702`, `src/common_wrt.c:339`), also while another buffer waits for it, and a buffer removes itself
  when no recorder is left (`src/simplebuffer.c:732`), also while block_until_free waits for it; such a thread waits for
  good (`Tickets.WaiterOfRemoved`, `Tickets.GoneForGood`). The loaded case exists only at the interface: set_loaded is
  called on the memory branch alone (`src/simplebuffer.c:876`) and get_specific on the disk branch alone
  (`src/simplebuffer.c:684`).
- The count of packets per connection is right exactly when a buffer reaches the end of the round it starts in
  (`Multistream.CountIsRightIff`).
- The value the writers return when a write fails is also the mark for the end of a file, and then the rest of the
  buffer is taken as written (`Drain.DoneIsCompleteIff`, `SingleFile.Recorder.RecordBuffer`). A recorder that fails in
  mid-buffer would be replaced only if it returned less than -1, which no synchronous one does; only an acquisition that
  fails is retried (`Drain.OnlyAcquiringIsRetried`). The size to retry with is kept in an int, so a buffer is written
  whole exactly when it is below 2 GiB or the first recorder takes it (`Drain.DrainCoversIff`). A short write into the
  padding makes the unsigned rest wrap (`Drain.ShortWriteIff`).
- Replaying a file always ends with packets that were never read (`Ring.EndPromisesTooMuch`), as many as were asked for
  at the end of the file (`Ring.ExtraIsRoomAsked`): of a file shorter than the ring, read before the sender starts, the
  whole ring is sent (`Ring.WholeRingIsSent`). The sender then waits for good if it sends them before the reader clears
  its flag (`Ring.HangsIff`).
- Asking the name table for a name that is not there returns a free slot unless its home slot is free or the table is
  full (`NameTable.AbsentIsSeenIff`).
- A read of whole files from the start of one opens one file too many (`ReadSplit.FilesOpenIsRight`); that file does not
  exist exactly when the read ends at the end of the recording and its last file is full (`ReadSplit.OpensMissingFileIff`).

## Model

| member | source | states |
|---|---|---|
| Headers.NumberInBytes | src/datatypes_common.c:184-203 | The packet number byte by byte: in a UDPMON header bytes 0 to 7, the most significant first, in a MARK5BNET header bytes 4 to 7, the least significant first. |
| Headers.MoreSignificantWins | src/datatypes_common.c:184-203 | Of two headers that agree on the bytes of the number before one byte, from the most significant on, the one with the larger byte there has the larger number. |
| Headers.SmallNumberIsLastByte | src/datatypes_common.c:197-203 | Zeros and a last byte b, in the order of the format, are the number b. |
| Headers.SetThenGet | src/datatypes_common.h:89-90 | Writing a packet number into a UDPMON or MARK5BNET header and reading it back gives the number modulo 2^64 or 2^32; no other byte of the header changes. Which bytes hold it, in which order, is `Headers.NumberInBytes`. |
| Headers.IncrementWraps | src/datatypes_common.c:204-225 | Incrementing a header adds one modulo the width of the field, also at the wrap. |
| Headers.HeaderMatchIsEquality | src/datatypes.c:35-56 | The difference header_match computes is zero exactly when the two headers carry the same number, although it is a signed difference of wrapped numbers. |
| Headers.IncrementExpected | src/datatypes.c:153-166 | The model header after one more increment is the header that belongs in the next slot, for every file and slot. |
| Headers.FillHoles | src/datatypes.c:148-170 | The loop leaves exactly the patched buffer and reports exactly the number of visited slots whose number differed. |
| Headers.CheckAndFill | src/datatypes.c:133-173 | Nothing is touched and -1 is returned before the first packet; otherwise the visited slots are patched and counted, as many as the file index says were received. What a patched slot holds is `Headers.FilledIsNumbered` and `Headers.HoleGetsFirstHeader`. |
| Headers.FilledIsNumbered | src/datatypes.c:153-166 | Every visited slot ends up with the number its place demands; a slot that had it keeps every byte, any slot keeps its payload, unvisited slots are untouched. |
| Headers.HoleGetsFirstHeader | src/datatypes.c:100-125 | A visited slot without the number of its place gets the header of the first packet received, byte for byte but for the number, and keeps what is behind the header. |
| Headers.FillingIsIdempotent | src/datatypes.c:133-173 | A second pass finds no hole and changes nothing. |
| WindowProofs.RunKeepsInv | src/udp_stream.c:337-557 | Whatever arrives: every stored packet sits in the slot its number demands, the newest number lies in the current file, and files left so far are exactly 0, 1, 2, ... with at most one hanging. |
| Window.WhereItGoes | src/udp_stream.c:390-561 | Told from the numbers: a packet goes to its slot in the current file, the next one, or the one before while that is waited for; it is ignored if it repeats the newest and lost otherwise. |
| WindowProofs.RunAccounts | src/udp_stream.c:343-377 | Conservation on every run: each packet was accepted into one file, ignored as a repeat of the newest, or dropped; `missing` is the dropped packets plus the holes of files handed over incomplete. |
| WindowProofs.RunStoresArrivals | src/udp_stream.c:416-557 | Nothing is ever stored that did not arrive. |
| WindowProofs.CountsAreOffByOverwrites | src/udp_stream.c:464-489 | The packet counters overstate the filled slots by exactly the number of packets that overwrote an older copy, on every run. |
| WindowProofs.LateRepeatCompletesAFile | src/udp_stream.c:464-479 | A concrete run in which a late repeat makes a file with a hole count as complete. |
| WindowProofs.RunIsFaithful | src/udp_stream.c:674-674 | If no number repeats, the byte counters count exactly the filled slots and the assertion on them never fires. |
| WindowProofs.HandedOverForGood | src/udp_stream.c:353-377 | A file that was handed over is never changed, taken back or handed over again. |
| WindowProofs.HandedInOrder | src/udp_stream.c:820-836 | Including the final flush, and whether or not the streamer had gone on to the next buffer, files are handed over as 0, 1, 2, ..., each once; all whole except that the one open at the end is written only as far as packets were counted, and an empty one is cancelled. |
| WindowProofs.ShortWriteKeepsAll | src/udp_stream.c:820-836 | Everything in the last, shortened file reaches the disk if and only if there is no hole in front of its last packet. |
| WindowProofs.LeftBehindIncomplete | src/udp_stream.c:498-518 | If no number repeats, the buffer left by a packet that runs ahead is never complete, so the memory the packet is copied out of is still held. |
| WindowProofs.FullEarlyIsOverwritten | src/udp_stream.c:498-518 | In any stream it can be complete only if a packet in it was overwritten. |
| WindowProofs.BoundedDisorderLosesNothing | src/udp_stream.c:390-561 | If no number repeats, no packet is older than the first and each is less than one file behind and at most one file ahead of the newest so far, then no packet is dropped and each is handed over in the file and slot its number demands. |
| LastFile.LastOpenIs | src/udp_stream.c:684-698 | Told from the arrivals: the file open at the end is that of the newest number, unless a packet came after it or the streamer was stopped while waiting for one; then it is the file of the number after the newest. |
| LastFile.LastFileIsWholeIff | src/udp_stream.c:820-836 | Without repeats and with disorder within one file: nothing is cut off the file open at the end if and only if every number of that file up to the newest has arrived. |
| LastFile.OpenCountIs | src/udp_stream.c:820-836 | Under the same conditions the packets counted in the file open at the end are the arrivals that belong there. |
| LastFile.LastPacketIsCutOff | src/udp_stream.c:825-833 | A losing run: numbers 0 and 2 with four slots are both accepted, and the file is written up to slot 1. |
| NumberRange.LostIsBeyondRange | src/datatypes_common.c:197-203 | A stream that counts up in order and without loss loses exactly the packets whose numbers come after the largest signed integer of the width of the field: none of them is accepted, and none before them is lost. |
| FileIndex.FilesAreOpened | src/udp_stream.c:684-698 | Every file but the first was opened because the one before it was passed, or by a packet that ran ahead. |
| FileIndex.RunIndexes | src/udp_stream.c:689-693 | On every run the packet count in the file index is N times the files that were passed; files left by a packet that ran ahead are not in it. |
| FileIndex.FlushIndexes | src/udp_stream.c:826-833 | At the end the receive position is added, unless the last buffer is empty. |
| FileIndex.VisitedInTheEnd | src/datatypes.c:143-147 | With that count the filler visits the first files whole, as many as were passed, the next as far as the receive position, and no other. |
| FileIndex.NoneJumpedIff | src/udp_stream.c:498-530 | Told from the arrivals: no file is opened early if and only if no packet belongs to a later file than that of the number after the newest before it. |
| FileIndex.AheadIsNotCounted | src/udp_stream.c:498-530 | A run in which they are: numbers 0, 4 and 7 with three slots leave a count of 2, and slot 2 of file 0 and files 1 and 2 unvisited. |
| Resequencer.CalcKeepsAligned | src/udp_stream.c:416-557 | After every packet the receive position is the slot behind the newest packet, i = current_seq - seqstart_current + 1 within 0..N, as a counter and as a buffer position. |
| Resequencer.Receiver.JumpToNextBuf | src/udp_stream.c:337-389 | Hands over the hanging buffer as missing packets, hands over a complete current buffer or leaves it hanging, and opens the next one; the buffer left keeps its memory. |
| Resequencer.Receiver.DelayedBeyondFile | src/udp_stream.c:448-481 | A packet before the current buffer goes to its slot in the hanging buffer, which is handed over once it is full, or is dropped and counted. |
| Resequencer.Receiver.AheadBeyondFile | src/udp_stream.c:498-530 | A packet one file ahead follows into a newly opened buffer and moves the receive position behind itself; it is copied after the old buffer was left, which is still held if and only if its byte counter was not full. One farther ahead is dropped and counted. |
| Resequencer.CopiedFromReleased | src/udp_stream.c:509-518 | A run with a repeat, 0, 1, 0 and 4 with three slots, in which buffer 0 is handed over as complete while packet 4 is staged in its slot 2 and not copied yet. |
| Resequencer.Receiver.InsideBuffer | src/udp_stream.c:483-557 | A packet out of order inside the buffer is copied to its slot; one newer than all before moves the receive position behind it. |
| Resequencer.Receiver.CalcBufposGeneral | src/udp_stream.c:390-561 | The whole case analysis on a packet, with the memory it may change: the current buffer, the hanging buffer or a newly acquired one, nothing else. |
| Resequencer.Receiver.HandleReceivedPacket | src/udp_stream.c:562-683 | One packet through the loop; reports whether the byte-counter assertion holds. |
| Resequencer.Receiver.ReleaseAll | src/udp_stream.c:820-836 | The final flush writes the hanging buffer whole and the current one as far as counted. |
| Resequencer.UdpReceiver | src/udp_stream.c:746-836 | The receiving thread over any packet stream, stopped while it waits or not, gives the writers and the file index exactly what the step-by-step specification gives, and stops at once exactly when the assertion fails. |
| Refinement.ReceiveRefines | src/udp_stream.c:684-698 | One round of the pointer-and-counter code, buffer switch included, is one step of the resequencing window. |
| Refinement.AheadReadsHeldIff | src/udp_stream.c:509-518 | On every run: the buffer a packet that runs ahead is copied out of is still held if and only if the file does not count N packets; otherwise it has been handed over with the packet in it. |
| Refinement.RunRefines | src/udp_stream.c:746-818 | Over every run the receiver keeps the same files, byte counters, positions and memory contents as the window, and hands over the same files with the same contents. |
| Refinement.FlushRefines | src/udp_stream.c:820-836 | So does the final flush. |
| EndToEnd.SlotsWrittenIs | src/udp_stream.c:820-836 | All files that were left are written whole; the one open at the end is written as many slots as packets were counted, never more than there are. |
| EndToEnd.AcceptedIsOnDisk | src/datatypes.c:153-166 | Every packet accepted into a file is on disk at its slot byte for byte, however far the filler went, if and only if the file is written that far, which only the last one may not be. |
| EndToEnd.PacketIsRecordedIff | src/udp_stream.c:746-836 | Without repeats and with disorder within one file, a packet received is on disk in its place if and only if it is not of the file open at the end or lies there in front of the number of packets received for that file. |
| EndToEnd.RecordingIsCompleteIff | src/udp_stream.c:746-836 | Without repeats and with disorder within one file, every packet received is on disk byte for byte in the file and slot its number demands if and only if no number of the file open at the end is missing in front of the newest. |
| EndToEnd.InOrderIsRecordedIff | src/udp_stream.c:746-836 | Of a stream whose fields count up in order and without loss a packet is on disk in its place if and only if its number stays in the signed range; past 2^31 - 1 every MARK5BNET packet is dropped. |
| EndToEnd.OnePacketIsRecorded | src/udp_stream.c:746-836 | The shortest recording: one packet leaves one file on disk with that packet in it. |
| EndToEnd.SlotsAreNumberedIff | src/datatypes.c:133-173 | Receiver and hole filler together, with or without a file index, whatever arrived in whatever order: slot k of file j on disk carries the number N*j + k after that of the first packet if and only if the filler reached it or that number was in the buffer there; a slot not reached is written as it was. |
| EndToEnd.HolesHaveFirstHeader | src/datatypes.c:100-170 | On disk every hole the filler reached has the header of the very first packet received, but for the number, and behind it what the buffer had. |
| EndToEnd.AllCoveredIff | src/datatypes.c:141-151 | Whenever the writers read the count in the file index, the filler goes through all that is written of all files if and only if no file was opened early and the last one counts no more packets than its receive position. |
| EndToEnd.OrderlyIsCoveredIff | src/datatypes.c:141-151 | Told from the arrivals, without repeats and with disorder within one file: if and only if no packet belongs to a later file than is due. |
| EndToEnd.JumpedLeavesLastFile | src/datatypes.c:141-151 | Once a packet has run ahead, the last file is never visited, whenever its writer looks. |
| EndToEnd.AheadIsNeverVisited | src/datatypes.c:141-151 | Numbers 0, 4 and 7 with three slots: at no time is slot 2 of file 0 or any slot of files 1 and 2 visited. |
| EndToEnd.RecordingIsNumbered | src/datatypes.c:133-173 | If no packet belongs to a later file than is due, every file of such a recording is numbered without a gap, whatever was lost and whenever the writers looked. |
| EndToEnd.HolesAreCounted | src/datatypes.c:153-170 | In every file of a recording whose numbers do not wrap, and whose buffers did not come with the very numbers expected, the filler reports exactly the slots it reaches that got no packet. |
| EntityLists.AddBeforeEnt | src/resourcetree.c:53-60 | Linking an entity in front of another keeps child and father inverse and puts it exactly there; it becomes the head when the other was. |
| EntityLists.AddToNext | src/resourcetree.c:62-92 | Adds in front of the first entity the comparator puts after the new one, at the end otherwise; the list stays a proper chain that names its root. |
| EntityLists.Add | src/resourcetree.c:94-101 | First insertion of an entity into a list. |
| EntityLists.InsertKeepsOrder | src/resourcetree.c:71-83 | Adding with any comparator that is a strict order keeps an ordered list ordered. |
| EntityLists.ChangeBranch | src/resourcetree.c:102-122 | Nothing happens when the entity is in that list already; otherwise it leaves its list, goes to the end of the other, both stay proper chains, and no entity of any third list changes. |
| EntityLists.MovingKeepsEntities | src/resourcetree.c:102-122 | A move loses and duplicates nobody. |
| EntityLists.RemoveFromBranch | src/resourcetree.c:325-351 | Removing an entity keeps the rest of its list in order, whether it was first, last or in between, and clears its links; the branch for an entity without a father that is not first is never reached. |
| EntityLists.LoopAndCheck | src/resourcetree.c:364-375 | Returns the first entity that identifies itself, or none. |
| ResourceBranch.Branch.TryGetFree | src/resourcetree.c:163-211 | One round of get_free: the first free entity that fits goes to the end of the busy list and all three lists stay proper and hold the same entities; with none that fits nothing changes. |
| ResourceBranch.Branch.AddToEntlist | src/resourcetree.c:94-101 | Adds a new entity to the end of the free list; the three lists stay proper and nobody else moves. |
| ResourceBranch.Branch.SetFree | src/resourcetree.c:146-152 | Moves an entity from the busy list to the end of the free list; all three lists stay proper and hold the same entities. |
| ResourceBranch.Branch.SetLoaded | src/resourcetree.c:239-246 | The same from the busy to the loaded list. |
| ResourceBranch.Branch.TakeLoaded | src/resourcetree.c:274-278 | The same from the loaded to the busy list. |
| ResourceBranch.Branch.FreeLoaded | src/resourcetree.c:315-321 | The same from the loaded to the free list. |
| ResourceBranch.Branch.Remove | src/resourcetree.c:325-351 | Takes an entity out of whichever list it is in; the other two are as they were and nobody else is lost. |
| Tickets.StepMatches | src/resourcetree.c:124-154 | Each section under a lock keeps the wrapping counters in step with a first-come-first-served line, while fewer than 32768 threads wait. |
| Tickets.OneOwner | src/resourcetree.c:226-324 | On every interleaving at most one thread has the entity: exactly one while it is busy, none while it is free or loaded. |
| Tickets.TicketsAreTheLine | src/resourcetree.c:262-272 | Waiting threads hold the tickets bottom + 1 to head modulo 32768, each another one, in the order they drew them. |
| Tickets.FirstComeFirstServed | src/resourcetree.c:518-526 | Threads get the entity in the order in which they drew tickets, and at most one ticket is up whose owner has not left. |
| Tickets.GivenBackIsTaken | src/resourcetree.c:135-152 | With nobody in the line, what a user sets free can be had by any idle thread, and what it sets loaded can be had as loaded, or freed and then had. |
| Tickets.PassedToFirst | src/resourcetree.c:124-154 | With threads in the line, what a user sets free or loaded goes to the first of them. |
| Tickets.FreedOrGone | src/resourcetree.c:292-351 | What block_until_free frees can be had again; what was removed or shut down is not taken, freed or waited for any more. |
| Tickets.GoesOnIff | src/resourcetree.c:226-324 | Exactly when a thread has a step it can take: it waits only for its ticket, for the waitlock, or for a removed entity, and who has the waitlock can always go on. |
| Tickets.DrawIsSafeUnlessFull | src/resourcetree.h:63-63 | Drawing a ticket lets a thread in at once if and only if 32767 threads wait already. |
| Tickets.TooManyWaiters | src/resourcetree.h:63-63 | A run with 32768 waiting threads in which two threads hold the entity. |
| Tickets.StrandedIff | src/resourcetree.c:135-152 | A step leaves a thread waiting for an entity nobody has if and only if set_free misses a thread that has the waitlock but no ticket, block_until_free frees or the holder or shutdown removes the entity over threads behind it, or get_specific queues for a loaded entity. |
| Tickets.EverStrandedIff | src/resourcetree.c:124-154 | So on every interleaving in bounds: a thread is ever stranded if and only if one of those steps was taken. |
| Tickets.NeverLoaded | src/resourcetree.c:226-248 | Without set_loaded the last case cannot happen. |
| Tickets.WaiterMissed | src/resourcetree.c:135-152 | A run in which set_free misses a thread about to draw its ticket. |
| Tickets.WaiterFreedOver | src/resourcetree.c:292-312 | A run in which block_until_free frees the entity over the thread behind it. |
| Tickets.WaiterOfRemoved | src/common_wrt.c:331-346 | A run in which the holder removes the entity over the thread behind it; after it no step is possible. |
| Tickets.GoneForGood | src/resourcetree.c:325-351 | A removed entity never comes back, and nobody who waits for it is served. |
| Tickets.LoadedIsWaitedFor | src/resourcetree.c:515-528 | A run in which get_specific waits for a loaded entity; in the program set_loaded and get_specific serve different branches. |
| Multistream.SlotIsNext | src/tcp_stream.c:315-323 | A thread starts at the slot of the next packet of its stream, in either branch. |
| Multistream.CountIsRightIff | src/tcp_stream.c:332-336 | The unsigned count of packets a thread transfers is the number dealt to its stream if and only if the buffer reaches the end of the round it starts in; otherwise it is more than the buffer holds. |
| Multistream.EverySlotIsTaken | src/tcp_stream.c:315-336 | Every slot of a buffer belongs to the thread of its stream. |
| Multistream.SlotsAreDisjoint | src/tcp_stream.c:315-366 | No slot belongs to two threads or twice to one. |
| Multistream.NextEnds | src/tcp_stream.c:458-459 | The end remainder after a buffer is that of all packets so far, in 32-bit arithmetic on the receiver and in 64-bit arithmetic on the sender (lines 619-620). |
| Striping.ReceiveShare | src/tcp_stream.c:342-377 | A receiving thread, fed in pieces of any size, leaves its packets whole in its slots and every other slot alone. It reports all full if and only if its share is complete; it stops before only at a failing call or at the end of its stream, so on a steady socket it is full if and only if the stream is long enough. |
| Striping.SendShare | src/tcp_stream.c:342-377 | A sending thread puts the packets of its share on the wire in order, up to the piece of a packet it was stopped in; it stops before the end only at a failing call. |
| Striping.ReceiveBuffer | src/tcp_stream.c:423-451 | All threads together: the buffer is full unless a socket fails or a stream ends too early, and then every slot was taken from its stream where the thread stopped in the buffer before. |
| Striping.OthersKeepTheirs | src/tcp_stream.c:342-367 | What one thread stores never touches the share of another, so the order in which threads run does not matter. |
| Striping.ReceiveLoop | src/tcp_stream.c:386-484 | The receiver over any number of buffers: full buffers only, remainders carried from one to the next, no stream read twice or skipped; it ends early only if a socket fails or a stream cannot fill its share of the next buffer. |
| Striping.SendBuffer | src/tcp_stream.c:598-674 | All threads of the sender on one buffer put exactly their shares on their connections, unless a call fails. |
| Striping.SendLoop | src/tcp_stream.c:598-674 | Over a whole recording each connection carries its stream, packet after packet, with no gap at buffer boundaries, unless a call fails. |
| Striping.SentIsLane | src/tcp_stream.c:315-367 | The sender deals packet k of the whole recording to stream k mod S, whatever the buffer sizes. |
| Striping.MergingUndoesDealing | src/tcp_stream.c:386-484 | Full receive buffers are the packets sent, in order, even when the two sides use different buffer sizes. |
| Striping.AllEnoughIff | src/tcp_stream.c:332-336 | The next n packets are there for every thread if and only if the recording has that many left. |
| Striping.MergingFillsAll | src/tcp_stream.c:386-484 | Unless a connection fails, the receiver fills exactly as many buffers as the packets sent make, or as it has rounds for, and they are those packets in order. |
| Drain.Buffer.WriteBytes | src/simplebuffer.c:513-590 | One chunk: how many bytes are asked for and what is left afterwards, for every return value. |
| Drain.Buffer.EndTransaction | src/simplebuffer.c:438-503 | The last short chunk of direct I/O: padded to a block, only the data counted. |
| Drain.Buffer.SyncLoop | src/simplebuffer.c:623-635 | The loop issues exactly the chunks of one try and terminates. |
| Drain.Buffer.WriteLoop | src/simplebuffer.c:842-894 | Tries recorders until one takes the whole buffer, from byte 0 each time, with the size kept in an int. |
| Drain.RunCovers | src/simplebuffer.c:513-590 | A try that ends well without an end of file has written every byte in order, also when calls write less than asked, and with direct I/O whole blocks up to the next block boundary. |
| Drain.RunAsksForMost | src/simplebuffer.c:437-466 | Every call of a try is for the whole limit while there is as much left, and otherwise for all that is left, which with direct I/O is padded to the next block. |
| Drain.RunGoesOn | src/simplebuffer.c:465-503 | Calls follow each other without a gap: the first is at the first byte, each other one where the one before, which wrote something, ended. |
| Drain.RunEnds | src/simplebuffer.c:623-635 | A try ends when nothing is left, at an end of file, or with a call that failed; only then it has failed, and what that call was for is left. |
| Drain.RunStaysInMemory | src/simplebuffer.c:537-550 | Every call, also of a failing try, stays inside the buffer, which with direct I/O is allocated in whole blocks. |
| Drain.RunIsInBlocks | src/simplebuffer.c:449-466 | With direct I/O every call starts and ends on a block boundary. |
| Drain.DoneIsCompleteIff | src/simplebuffer.c:551-561 | A try that ends well has written everything if and only if no call returned -1, which is both end of file and the failure value of the writers. |
| Drain.NothingWritten | src/simplebuffer.c:551-568 | A call that wrote nothing leaves everything to be written, but after an end of file nothing is left. |
| Drain.ShortWriteIff | src/simplebuffer.c:487-493 | A call that wrote less than asked moves on by what it wrote, and leaves the right rest if and only if it did not write into the padding. |
| Drain.DrainCoversIff | src/simplebuffer.c:842-894 | For every list of recorders and every size below 2^63: the accepted try, if no call returned -1, has written the whole buffer from byte 0 in order if and only if the size is below 2^31 or the first recorder took it; otherwise it has written as many bytes as the int gives back. |
| Drain.DrainCovers | src/simplebuffer.c:842-894 | Under that condition it has written everything if and only if no call returned -1. |
| Drain.OnlyAcquiringIsRetried | src/simplebuffer.c:842-894 | With recorders that return nothing below -1, as all synchronous ones do, only a failed acquisition is retried: the buffer goes to the first recorder acquired, whatever its calls return. |
| SingleFile.Recorder.WritevWrite | src/writev_writer.c:51-102 | However many batches the vector limit forces, the offset moves on by the packets without their first bytes, and the file gets them there if no write was short; -1 exactly when a write failed. |
| SingleFile.Recorder.RecordBuffer | src/simplebuffer.c:519-555 | Calls limited to whole packets continue each other, and the result is success in any case: -1 reads as an end of file. The whole buffer was passed on if and only if no write failed. |
| SingleFile.SingleFileIsTheRecording | src/common_wrt.c:146-150 | With all buffers but the last full, the single file is the whole recording without the stripped bytes, in order: the parts neither overlap nor leave a gap. |
| SingleFile.StrippedAt | src/writev_writer.c:61-75 | Byte j of what is left of packet i lies i stripped packets and j bytes into the file, and it is byte offset + j of the packet. |
| SingleFile.RecordAll | src/common_wrt.c:146-150 | All buffers, each with a recorder acquired for it: if no write failed and none was short, the file is the recording without the stripped bytes. |
| SingleFile.OneFileAtATime | src/common_wrt.c:162-169 | With the turn counter files are written one at a time in the order of their ids, although a waiting recorder only checks that the counter has reached its id. That each gets its turn is `SingleFile.TurnIsNexts` and `SingleFile.AllCanFinish`. |
| SingleFile.TurnIsNexts | src/simplebuffer.c:651-660 | After any possible sequence it is the turn of exactly one file, the one the counter names: it may begin if it has not begun, and finish if it has. |
| SingleFile.AllCanFinish | src/simplebuffer.c:651-660 | Any possible sequence of turns can be continued until all files below any n have finished; from the start these are then the only ones. |
| Sizing.AlignElements | src/confighelper.c:830-839 | The largest number of packets not above the capacity that fills whole blocks; -1 when there is none. |
| Sizing.WholeBlocksIff | src/confighelper.c:832-834 | Packets fill whole blocks exactly in multiples of one least number. |
| Sizing.CutIsToStep | src/confighelper.c:830-839 | The cut goes down to a multiple of that number and fails exactly when the capacity is below it. |
| Sizing.LeastIsStep | src/confighelper.c:832-834 | The least number of packets in whole blocks is 4096 / gcd(packet size, 4096). |
| Sizing.CutIsBelowMultiples | src/confighelper.c:831-843 | The bytes cut are fewer than any common multiple of packet size and block size; one step of packets is the least of them. |
| Sizing.PacketAdjustment | src/streamer.c:208-215 | The packet size grows to the next multiple of 16 and no further. |
| Sizing.RaiseDivision | src/streamer.c:143-148 | The least division from 8 on that uses the minimum of memory. |
| Sizing.SearchWrite | src/streamer.c:154-167 | For one division the smallest write of at least so many packets that is of whole blocks, if it stays below the maximum of memory; otherwise none does. |
| Sizing.CalculateBufferSizes | src/streamer.c:137-206 | Succeeds if and only if some write of whole blocks fits once per thread. The write is then the smallest of whole packets and whole blocks not below the one asked for, the division the largest up to the raised one with which it stays below the maximum of memory, and a buffer has that many writes of packets, so at least one. |
| Sizing.FailsIffOneBlockTooMuch | src/streamer.c:151-186 | The search fails exactly when nothing fits even with one block per buffer. |
| Ring.RunIsSafe | src/morph_to_net.c:82-160 | On every interleaving, the end of the file included: 0 <= n_ready <= M, packets read and not yet sent are intact in their slots, and what was sent is the beginning of the file, or the file and more. |
| Ring.SentIsPrefix | src/morph_to_net.c:206-261 | Until the reader has met the end of the file only packets of the file are sent, in order. |
| Ring.GrabAsksForAll | src/morph_to_net.c:127-134 | The reader asks for all the room there is, or for all of it up to the end of the ring, and no more. |
| Ring.TakeTakesAll | src/morph_to_net.c:223-229 | The sender takes everything that is ready, or all of it up to the end of the ring, and no more. |
| Ring.NeverStuck | src/morph_to_net.c:127-128 | No step touches memory outside the ring, and some step is possible if and only if the sender has not ended and the two threads do not both wait for good. |
| Ring.WhoWaits | src/morph_to_net.c:127-128 | On every interleaving the reader can go on unless the ring is full or it has stopped, and the sender unless nothing is ready or it has ended. |
| Ring.EndPromisesTooMuch | src/morph_to_net.c:139-145 | When nothing is left to do the whole file was sent, and after it at least one packet that was never read; how many is `Ring.ExtraIsRoomAsked`. |
| Ring.ExtraIsRoomAsked | src/morph_to_net.c:127-143 | The packets reported at the end without having been read are as many as were asked for once nothing was left of the file: all the room there was then, or all of it up to the end of the ring. |
| Ring.WholeRingIsSent | src/morph_to_net.c:127-143 | If the reader meets the end of the file before the sender starts, exactly the whole ring is sent: the file, and behind it what the other slots held before. |
| Ring.HangsIff | src/morph_to_net.c:217-228 | The sender waits for good if and only if it had sent everything before the reader cleared its flag. |
| Ring.UnreadPacketIsSent | src/morph_to_net.c:139-152 | Both endings in a ring of two slots and a file of one packet: two packets are sent. |
| NameTable.HashFunction | vbs_fs/vbs_fs.c:191-245 | The probing loop, with its one pass over the end, finds the first slot from the home slot on that is free or holds the name; -1 for the empty name or when there is none. |
| NameTable.LookupIsFirst | vbs_fs/vbs_fs.c:201-240 | The slot found is free or holds the name, and every slot from the sum of the bytes modulo the size up to it, around the end if need be, is taken by another name. |
| NameTable.SumJoins | vbs_fs/vbs_fs.c:201-210 | Every byte of a name counts once in that sum, wherever it stands. |
| NameTable.LookupIsExact | vbs_fs/vbs_fs.c:191-245 | With get_not_set 0 in a table only ever inserted into: the slot returned holds the name exactly when it is in the table, otherwise it is free, and -1 comes exactly when the table is full. |
| NameTable.InsertKeepsValid | vbs_fs/vbs_fs.c:1031-1042 | Inserting keeps every name findable and adds no other. |
| NameTable.InsertAllIsExact | vbs_fs/vbs_fs.c:1031-1042 | After any insertions exactly the names inserted are in the table, unless it was full. |
| NameTable.AbsentIsSeenIff | vbs_fs/vbs_fs.c:217-221 | With get_not_set 1 an absent name is reported as absent if and only if its home slot is free or the table is full; otherwise a free slot is returned. |
| NameTable.PresentIsSeen | vbs_fs/vbs_fs.c:217-221 | With get_not_set 1 a name in the table is found. |
| ReadSplit.VbsRead | vbs_fs/vbs_fs.c:1344-1471 | For every request that starts inside the recording: the threads read inside their files and what they put together is exactly the stretch asked for, cut at the end of the recording; past it the request is refused. |
| ReadSplit.SplitIsSlice | vbs_fs/vbs_fs.c:1409-1446 | Segments lie in their files and concatenate to the stretch of the recording, whatever file and position it starts at. |
| ReadSplit.FilesOpenIsRight | vbs_fs/vbs_fs.c:1394-1399 | The number of files opened is enough, and one too many exactly when whole files are asked for from the start of one. |
| ReadSplit.OpensMissingFileIff | vbs_fs/vbs_fs.c:1394-1411 | A file behind the last one is opened if and only if whole files are asked for from the start of one up to the end of the last, which is full; it is then the last one opened, and for no bytes. |
| ReadSplit.OpensMissingFile | vbs_fs/vbs_fs.c:1394-1411 | Two files of two bytes, read whole: three files are opened. |
| ReadSplit.LengthsRoundTrip | vbs_fs/vbs_fs.c:1119-1133 | Converting a length to its length on disk and back loses exactly the bytes of a broken last packet. |
| ReadSplit.TrueLengthIsLeast | vbs_fs/vbs_fs.c:1119-1129 | The length on disk of an amount of stripped bytes is the shortest stretch of packets in which that many bytes are kept. |
| ReadSplit.StrippedLengthIsKept | vbs_fs/vbs_fs.c:1130-1133 | The stripped length counts the bytes kept of the whole packets in a stretch. |
| ReadSplit.WholePacketsRoundTrip | vbs_fs/vbs_fs.c:1130-1133 | Lengths of whole packets convert back exactly. |

## Left out

- Sockets, files, memory mapping, hugepages, splice, libaio, libconfig, FUSE, inotify and logging: what they return is a
  parameter.
- VDIF and MARK5B sequence numbers and filling, WAIT_START_ON_METADATA and streams of unknown type: other branches of
  the same switch statements; the first two are unfinished in the code.
- Resequencer.Receiver.HandleReceivedPacket: does not model datagrams of another size than a packet, which are not
  sorted, only logged until a limit stops the streamer; one leaves its bytes in the free slot it was received into.
- A packet number equal to INT64_MAX: it is the streamer's own mark for "nothing received yet".
- A non-zero `offset` in the resequencer: there the full test compares counters of different units.
- Concurrent access to the file index is modelled by what a writer can read: any count the index has from the time its
  file was handed over.
- EndToEnd.HolesAreCounted: for numbers in the signed range; beyond it no packet is accepted, and a dropped one that
  passed through the slot it belongs to is no hole.
- The references `before`, `bufstart_before` and `inc_before` are one nullable buffer in the model, as they are set and
  cleared together.
- Buffers come out of the pool with arbitrary contents and are fresh memory in the model; get_free returning nothing
  ends the thread.
- The cast to 32 bits in the assertion on the byte counter and overflow of differences of 64-bit numbers.
- EntityLists.RemoveFromBranch: does not model freeing the entity and its close function.
- ResourceBranch.Branch.TryGetFree: does not model sleeping until something is freed or the acquire function.
- Liveness of the ticket queue: a signal may wake the wrong thread. Proved are safety and who could go on.
- Tickets.EverStrandedIff: does not model shutdown closing an entity in the moment between its being passed on and its
  new owner noticing, nor what a thread reads from the memory of a removed entity.
- NumberRange.LostIsBeyondRange: for streams of at most as many packets as the field has numbers.
- Several entities at once in the ticket protocol: which entity a thread asks for is decided under the branch lock.
- Buffers cut short by a failing connection: the transfer stops, and the round trip covers full buffers only.
- Striping.ReceiveLoop: assumes at least one packet per stream in a buffer, which is when the count of packets per thread
  is right from any remainder on; the exact condition is that of `Multistream.CountIsRightIff`.
- Drain.Buffer.SyncLoop: assumes recorders that never return 0 and, with direct I/O, write everything or fail, because a
  recorder that keeps returning 0 makes the loop run for ever and a short write into the padding wraps what is left.
- The asynchronous drain: padded completions can exceed what is counted.
- Builds without write granularity, where one call writes the whole buffer.
- SingleFile.Recorder.WritevWrite: states only the offset once a gathering write was short, since the code logs that and
  goes on as if all was written; what such a write leaves in the file is stated by `SingleFile.Recorder.WriteBatch`.
- Overflow in the memory products of the buffer-size search; sizes are unbounded integers there.
- Sizing.CalculateBufferSizes: assumes a write size of at least one packet or no minimum of memory, as the loop for the
  minimum does not end otherwise.
- Short reads before the end of the replayed file, where the reader would leave a gap, and errors of the two threads.
- The builder of the name table skips a name whose slot is 0; deletion leaves no mark and would break probing.
- ReadSplit.VbsRead: covers offset 0 and recordings without missing files; a missing file leaves the rest misplaced.
- Per-file status flags, the scheduler, the sender's progress counters and the unused ring buffer.
