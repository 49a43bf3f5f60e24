# A verified model of Fuse

Fuse is a reliable transport over UDP: a selective-repeat window protocol with cumulative and
selective acknowledgement, a multi-threaded receive pipeline, resumable file transfers, a setup
handshake, and a small socket-style API. This project models that core in Dafny and proves what
it is meant to guarantee, for every input, every interleaving and every network behaviour.

`dafny verify dfyconfig.toml` checks the whole project.

## How the modules fit together

- `Word64` (with `Basics` and `Modular`): 64-bit words with C++'s operators, one lemma per operator
  about every bit; ring-index arithmetic.
- `Control`, `ReceiverWindow`, `NackRuns`: the receive window. The reference is a plain set of
  numbers with gap times; the class keeps bit and timer rings and behaves exactly like it.
- `Registry`, `Tiling`, `LaneSender`, `SendLoop`: the sender. What an ACK frees, how ranges are cut
  into blocks, the state of a lane, and the loops that run it.
- `SpscRing`, `Pipeline`, `RingPipeline`: the lock-free ring; the reader, writers and retransmission
  thread as a machine over queues; and the same threads over their real rings, one access to a ring
  counter, a slot or the output at a time, whose every run is a run of that machine.
- `LaneSystem`, `Lanes`, `Progress`: sender, hostile network and pipeline together. Safety of every
  run, many lanes interleaved, the multiplexed variant as a special case, and that no state is a
  dead end.
- `Resume`, `Trailer`, `CrashResume`, `FileSession`: which ranges a resumed transfer asks for, the
  trailer that records progress on disk, crashes at any moment, session after session; and whole
  sessions, in which the lanes of `Lanes` write to that file and every write turns out to be a step
  that `CrashResume` allows.
- `Wire`, `Codec`, `SetupCodec`, `Layout`: bytes on the wire and in the trailer; that decoding inverts encoding,
  and at which byte position each field lies.
- `Setup`, `Sdk`, `SdkWire`, `SdkProgress`, `Reassembly`, `Congestion`, `KeySchedule`: the handshake, message framing with
  several sending threads and what their resends carry, the two reassembly modes, window and timeout arithmetic, keys and nonces.

## Assumptions

- The network loses, repeats, delays and reorders at will. Anyone may inject datagrams into a lane,
  but they do not pass authentication; without a pre-shared key this means that nobody injects.
- ACKs and NACKs acted on come from the receiver, except where a statement says "any ACK".
- Key derivation, sealing and hashing are arbitrary functions. Agreement in SETUP assumes that the
  hash does not collide on the two bodies compared; nothing is asked of the trailer's checksum.
- A clock is not 0 and does not run backwards; sequence numbers stay below 2^64.
- The 64-bit number that a SETUP responder draws for a new configuration has not been drawn before.
- A sync makes durable what was written before it; a crash may otherwise lose any unsynced byte
  independently of any other. Truncating a partial file takes effect before what follows it.
- `std::sort` returns some ordering by offset, ranges with equal offsets in any order.

## Model

| member | source | states |
|---|---|---|
| `ReceiverWindow.ReceiverStream.constructor` | src/proto/receiver.cpp:5-13 | the window is clamped to 1..1024 and nothing has arrived |
| `ReceiverWindow.ReceiverStream.IsReceived` | include/fuse/proto/receiver.hpp:52-75 | true exactly for the numbers of the window that have arrived |
| `ReceiverWindow.ReceiverStream.OnReceive` | src/proto/receiver.cpp:41-78 | the verdict and the new state are those of the set of accepted numbers, for every window size; gaps get their time once, when first exposed |
| `ReceiverWindow.ReceiverStream.Slide` | src/proto/receiver.cpp:29-39 | ends, with the base at the least number not received and the rings still exact for the moved window |
| `ReceiverWindow.RelativeBit` | src/proto/receiver.cpp:15-27 | a bit of the word joined across two ring words is set exactly if that number arrived and lies in the window |
| `ReceiverWindow.ReceiverStream.BuildAck` | src/proto/receiver.cpp:80-89 | the ACK's base is the window's, and bit i is set exactly if base + i has arrived |
| `ReceiverWindow.ReceiverStream.CollectNacks` | src/proto/receiver.cpp:91-129 | lists exactly the due gaps from base to highest, ascending and untruncated, and stamps exactly those |
| `ReceiverWindow.DueInLists` | src/proto/receiver.cpp:105-127 | the list of due gaps has all of them, nothing else, in ascending order |
| `ReceiverWindow.ArriveKeepsWellFormed` | include/fuse/proto/receiver.hpp:85-95 | highest stays within the window and the base never moves back |
| `ReceiverWindow.SlideTimers` | src/proto/receiver.cpp:35-36 | a cleared timer slot now belongs to the number a window later, which sees no stale stamp |
| `NackRuns.ReportedGapsAreDue` | src/proto/receiver.cpp:115-125 | in every run a reported number is missing, its first exposure is at least the reorder delay old, and every earlier report of it at least the re-NACK interval |
| `NackRuns.DueGapsAreReported` | src/proto/receiver.cpp:115-125 | and a gap that old that was not reported within the interval is reported, the first time and every time again |
| `NackRuns.ReportedExactly` | src/proto/receiver.cpp:91-129 | both together, as an if-and-only-if over the events of any run |
| `NackRuns.EchoIsOfHighest` | src/proto/receiver.cpp:41-78 | in every run the echoed time is the send time of the highest block accepted, and the overflow count is the number of blocks turned away above the window |
| `NackRuns.LossyNeverReports` | src/proto/receiver.cpp:91-95 | a stream that is not lossless never reports |
| `NackRuns.ZeroDelaysListEveryGap` | src/proto/receiver.cpp:91-129 | with zero delays a report is exactly the unreceived numbers from base to highest, in every run |
| `Registry.SenderRegistry.constructor` | src/proto/registry.cpp:8-17 | the window is clamped to 1..1024 and no block is resident |
| `Registry.SenderRegistry.Store` | src/proto/registry.cpp:19-35 | only the number's own slot changes; too large a payload is refused and changes nothing |
| `Registry.SenderRegistry.Lookup` | src/proto/registry.cpp:37-43 | returns the resident block of that very number; a miss means that no slot holds it |
| `Registry.SenderRegistry.Confirm` | src/proto/registry.cpp:45-50 | frees that number and no other |
| `Registry.ApplyAck` | src/proto/registry.cpp:52-82 | for any ACK: frees exactly what it reports within [base, next), returns exactly the bytes let go, moves the base to min(ack base, next) and never back |
| `Registry.AckedBounds` | src/proto/registry.cpp:61-78 | an ACK confirms nothing outside [base, next) and everything below the new base |
| `Registry.AckedIs` | src/proto/registry.cpp:52-80 | a number is confirmed exactly if it is outstanding and below the ACK's base or selected |
| `Registry.SelectedEndIs` | src/proto/registry.cpp:66-78 | the selective part's mark is the least number above everything selected and sent |
| `SpscRing.StepKeepsInv` | include/fuse/proto/spsc_ring.hpp:58-96 | every access of either side, with stale caches, keeps the counters ordered and the published items intact |
| `SpscRing.EveryInterleaving` | include/fuse/proto/spsc_ring.hpp:58-96 | in every interleaving head_cache <= head <= tail_cache <= tail <= head_cache + capacity, every readable slot holds the item committed under its count, and the items consumed extend what was consumed before by exactly the next items committed |
| `SpscRing.ConsumedIsPrefix` | include/fuse/proto/spsc_ring.hpp:58-96 | from an empty ring, what has been consumed is a prefix of what has been produced, in order and without gap or repetition |
| `SpscRing.PermissionsAreStable` | include/fuse/proto/spsc_ring.hpp:66-91 | no step of one side takes a slot or an item away from the other |
| `SpscRing.FreeSlotIsAlone` | include/fuse/proto/spsc_ring.hpp:66-70 | a slot being filled is no published slot |
| `SpscRing.SpscQueue.RoundUpPow2` | include/fuse/proto/spsc_ring.hpp:99-103 | the smallest power of two that is enough |
| `SpscRing.SpscQueue.Writable` | include/fuse/proto/spsc_ring.hpp:58-64 | on 64-bit counters that wrap: the free room by the cached head, reloaded when full |
| `SpscRing.SpscQueue.SlotForWrite` | include/fuse/proto/spsc_ring.hpp:68-70 | the masked index of a wrapping counter is the slot of the true count |
| `SpscRing.SpscQueue.CommitN` | include/fuse/proto/spsc_ring.hpp:73-75 | publishes the filled slots, also across wrap-around |
| `SpscRing.SpscQueue.ReadableNow` | include/fuse/proto/spsc_ring.hpp:80-86 | the items readable by the cached tail, reloaded when empty |
| `SpscRing.SpscQueue.ConsumeN` | include/fuse/proto/spsc_ring.hpp:94-96 | returns the read slots, also across wrap-around |
| `Tiling.CutTakesFront` | src/proto/transfer.cpp:1809-1852 | a block takes the front of what remains, is as long as allowed or ends its range, and is last exactly if nothing remains after it |
| `Tiling.BlocksPartitionRanges` | src/proto/transfer.cpp:1787-1853 | for any sequence of block sizes the blocks carry the requested bytes each once and in order, and only the final one is marked last |
| `Tiling.BlocksAreFull` | src/proto/transfer.cpp:1809-1852 | no block is cut shorter than the size of the moment except at the end of a range |
| `Tiling.TilesDisjoint` | src/proto/transfer.cpp:1787-1853 | blocks whose bytes ascend, as a lane's do, share no byte |
| `LaneSender.SendKeepsInv` | src/proto/transfer.cpp:1815-1852 | sending a block keeps the registry exact, the tiling a front of the request and the byte count right |
| `LaneSender.NextSlotIsVacant` | src/proto/transfer.cpp:1824 | the slot a new block is stored in holds no block that may still be needed |
| `LaneSender.AnyAckKeepsInv` | src/proto/registry.cpp:52-82 | for any ACK at all: base monotone and at most next, residents inside [base, next) and as sent, bytes sent minus acknowledged equal to bytes resident |
| `LaneSender.AckFreesOnlyAcked` | src/proto/registry.cpp:55-78 | lookup after an ACK fails exactly for what it reported |
| `LaneSender.MarkAfterAck` | src/proto/registry.cpp:66-79 | after any ACK the mark is above every number it selects, at least the base, never lower than before, and one of these three |
| `LaneSender.FoundAsSent` | src/proto/transfer.cpp:1736-1748 | a block found for a resend is the block as first sent: payload, offset, flags |
| `SendLoop.SendLane.constructor` | src/proto/transfer.cpp:1704-1709 | a lane starts with nothing sent and its cursor at the first range |
| `SendLoop.SendLane.PackBatch` | src/proto/transfer.cpp:1808-1853 | the packing loop sends `packed` blocks in order, all of them full except possibly the final one, and stops only when the batch is full, all is sent, or its last or next block is short |
| `SendLoop.SendLane.TrySend` | src/proto/transfer.cpp:1773-1853 | sends exactly if there is something to send and every limit leaves room, as much as the limits allow; less than one block more than the window is then in flight |
| `SendLoop.SendLane.ReceiveAck` | src/proto/transfer.cpp:1898-1899 | the ACK branch does to the lane what `OnAck` says, for any ACK |
| `SendLoop.SendLane.TimeoutHoles` | src/proto/transfer.cpp:1961-1975 | the timeout loop resends the first eight blocks still held among the base and those below the highest one acknowledged |
| `SendLoop.OverdueAreHeld` | src/proto/transfer.cpp:1964-1977 | the timeout's list is the first eight held candidates in ascending order, or all of them |
| `SendLoop.TimeoutServesEveryRun` | src/proto/transfer.cpp:1955-1986 | in every run a timeout with anything outstanding resends the base first, every resend can be served, and the others lie below a block that has arrived |
| `SendLoop.MarkCoversAcks` | src/proto/registry.cpp:66-79 | in every run the mark is above everything any processed ACK selected, for good |
| `SendLoop.TimeoutRepairsHoles` | src/proto/transfer.cpp:1958-1977 | in every run a held block below one that a processed ACK selected is in the timeout's list, unless eight lower ones are |
| `Pipeline.StepKeepsInv` | src/proto/transfer.cpp:769-862 | every step of every thread keeps the pipeline invariant, provided only genuine blocks authenticate |
| `Pipeline.MarkIsClear` | src/proto/transfer.cpp:1307-1329 | `dispatched[seq % window]` never collides: an admissible block finds its mark clear |
| `Pipeline.DispatchKeepsInv` | src/proto/transfer.cpp:1303-1329 | handing out a block keeps marks, owners, counts and window consistent |
| `Pipeline.WriteKeepsInv` | src/proto/transfer.cpp:780-857 | authenticating and writing a block, with any outcome, keeps verdicts truthful and written bytes the source's |
| `Pipeline.CommitKeepsInv` | src/proto/transfer.cpp:859 | reporting a batch moves its numbers from one ring to the other, none lost and none doubled |
| `Pipeline.ReleaseKeepsInv` | src/proto/transfer.cpp:860 | returning the packet slots keeps the invariant |
| `Pipeline.DrainKeepsInv` | src/proto/transfer.cpp:1031-1068 | collecting a verdict moves the window only for a written block, and `written` by exactly its length |
| `Pipeline.InFlightOnce` | src/proto/transfer.cpp:1303-1329 | a number is in flight in at most one channel and there at most once |
| `Pipeline.WrittenAtMostOnce` | src/proto/transfer.cpp:780-857 | a block about to be written has never been written successfully before |
| `Pipeline.CommittedBlockIsInBothRings` | src/proto/transfer.cpp:859-860 | between commit and consume the packet slot still names a block whose verdict is out, and that consumer takes no batch then |
| `Pipeline.CollectIsArrival` | src/proto/transfer.cpp:1054-1064 | a collected block is always accepted by the receive window, which then moves as its own rule says |
| `Pipeline.BytesOnlyGetRight` | src/proto/transfer.cpp:818-857 | whatever is written, by any thread, an output byte only ever changes to the source's |
| `Pipeline.VerdictsAreJust` | src/proto/transfer.cpp:780-857 | a genuine block is never reported as forged, a forged one always is, and a failed write is never reported as written |
| `Pipeline.RunsStayTogether` | src/proto/transfer.cpp:1314-1317 | 64 consecutive new blocks go to one writer, the next 64 to the next, resends to their own thread |
| `RingPipeline.AccessRefines` | src/proto/transfer.cpp:769-862 | over real rings with stale counters, every single access either completes one step of the pipeline, enabled there, or changes nothing the pipeline shows |
| `RingPipeline.BatchIsAll` | src/proto/transfer.cpp:769-772 | a drain takes everything that the readable items, the room to report and the batch size allow, and no more |
| `RingPipeline.PublishRefines` | src/proto/transfer.cpp:1307-1329 | the tail store is the moment a block is handed out, although its mark and the pending count are set after it |
| `RingPipeline.GatherRefines` | src/proto/transfer.cpp:1031-1068 | a verdict counts as collected when the reader reads it, although its slot goes back only after the whole batch |
| `RingPipeline.ReportCommits` | src/proto/transfer.cpp:859 | the verdicts a tail store publishes are those put into the slots, in order |
| `RingPipeline.RingRunIsLaneRun` | src/proto/transfer.cpp:769-862 | every run of a lane over empty rings, from its start, is a run of the lane with the same sender, window and output |
| `LaneSystem.BuiltAckReports` | src/proto/receiver.cpp:80-89 | an ACK as built claims nothing the window does not hold, and its base is the window's |
| `LaneSystem.ActionKeepsInv` | src/proto/transfer.cpp:1762-2022 | every action of sender, network and receiver keeps the joint invariant |
| `LaneSystem.RunKeepsInv` | src/proto/transfer.cpp:1762-2022 | the joint invariant holds in every run, and a byte of the file only ever changes to the source's |
| `LaneSystem.NoWedge` | src/proto/transfer.cpp:1736-1760 | in every run a block sent and not yet in the window, and the block at the sender's base, are resident exactly as first sent |
| `LaneSystem.BaseIsResident` | src/proto/transfer.cpp:1964-1966 | no ACK, however old, ever freed the block at the base |
| `LaneSystem.BaseBelowNext` | src/proto/registry.cpp:61-65 | sender base <= receiver base <= next |
| `LaneSystem.NeverOutOfWindow` | src/proto/receiver.cpp:47-53 | nothing an honest sender ever sent is judged out of window |
| `LaneSystem.SenderDoneIsDelivered` | src/proto/transfer.cpp:2022 | when the sender leaves its loop every requested byte is in the output and `written` is their number |
| `LaneSystem.ReceiverDoneIsDelivered` | src/proto/transfer.cpp:1384-1422 | the same when the receiver's base has passed the block marked last |
| `Lanes.ShardsConcatenate` | src/proto/transfer.cpp:2388-2396 | the ceil-division shards of any number of lanes laid end to end are the buffer |
| `Lanes.ShardsApart` | src/proto/transfer.cpp:2388-2396 | no byte lies in two shards |
| `Lanes.ShardsAreEven` | src/proto/transfer.cpp:2388-2396 | no shard is longer than the rounded-up quotient, and every shard not at the end is exactly that long |
| `Lanes.EachLaneRuns` | src/proto/transfer.cpp:2394-2404 | in any interleaving of the lanes each lane just runs |
| `Lanes.WholeTransferArrives` | src/proto/mux_transfer.cpp:943-948 | once every lane is done at either end, the outputs laid end to end are the buffer, if each lane asked for what its part of the file lacked |
| `Lanes.MuxReceiveIsPipelined` | src/proto/mux_transfer.cpp:770-804 | a datagram handled under the stream's lock is six steps of an otherwise empty pipeline |
| `Lanes.MuxRunIsLaneRun` | src/proto/mux_transfer.cpp:313-440 | every run of a multiplexed stream is a run of a lane ending in the same state |
| `Progress.Settle` | src/proto/transfer.cpp:769-862 | whatever the pipeline's threads are in the middle of, it can be emptied |
| `Progress.CanAlwaysFinish` | src/proto/transfer.cpp:1762-2022 | from every state satisfying the invariant there is a continuation to a regular end with everything delivered |
| `Progress.NoRunIsADeadEnd` | src/proto/transfer.cpp:1762-2022 | the same from every state any run can reach |
| `Resume.ChooseChunk` | src/proto/transfer.cpp:363-364 | 64 KiB times the least power of two that keeps the map within 8M chunks |
| `Resume.Missing` | src/proto/transfer.cpp:404-421 | exactly the lane's bytes in incomplete chunks (all of them for a fresh file), as ascending ranges that never touch |
| `Resume.MinGap` | src/proto/transfer.cpp:682-686 | the smallest gap, at most 2^63 - 1 |
| `Resume.MergeClose` | src/proto/transfer.cpp:687-697 | one pass joins exactly the ranges no further apart than the bound |
| `Resume.MergedAsks` | src/proto/transfer.cpp:688-697 | a pass asks for exactly what was asked for and the gaps it closed |
| `Resume.Coarsen` | src/proto/transfer.cpp:680-700 | terminates; at most `limit` ranges, in order, asking for no less; unchanged if it fits, else with exactly the gaps up to 2g + 1 closed, for a g such that closing those below g leaves too many; 2g + 1 fits 64 bits |
| `Resume.MergedTwice` | src/proto/transfer.cpp:680-700 | closing gaps pass by pass is closing the widest pass's gaps at once |
| `Resume.SplitAnswer` | src/proto/transfer.cpp:704-727 | at least one part, each with at most 64 ranges, part p the p-th slice |
| `Resume.ReassembledIsSplit` | src/proto/transfer.cpp:1574-1592 | parts reordered, repeated or late: once all are there they are the list |
| `Resume.SortKeepsOrder` | src/proto/transfer.cpp:1604-1605 | any sort of a list already in order returns it |
| `Resume.Choose` | src/proto/transfer.cpp:1606-1623 | an answer is used as it is exactly if it is ordered, free of overlap and inside the lane; otherwise the whole lane is sent |
| `Resume.AnyAnswerIsSafe` | src/proto/transfer.cpp:1594-1623 | whatever the answer was, the lane it leaves can be sent |
| `Resume.SenderUsesTheList` | src/proto/transfer.cpp:1574-1623 | split, shuffled, repeated, reassembled, sorted and checked, the receiver's list comes out unchanged and passes |
| `Resume.Want` | src/proto/transfer.cpp:1216-1219 | a lane asks for exactly the bytes of its incomplete chunks if that takes at most `limit` ranges, and otherwise for those and the narrowest gaps, as `Coarsen` closes them |
| `Resume.SessionBytes` | src/proto/transfer.cpp:1220-1221 | the bytes both ends expect are the number of positions asked for |
| `Trailer.BuildMap` | src/proto/transfer.cpp:467-473 | the bitmap has exactly the bits of the complete chunks |
| `Trailer.AdoptedShape` | src/proto/transfer.cpp:542-577 | an adopted image has the full length and its bitmap right behind the data |
| `Trailer.TrailerRoundTrip` | src/proto/transfer.cpp:474-485 | a trailer written whole is read back with the same identity, sizes and marks |
| `Trailer.AdoptsIs` | src/proto/transfer.cpp:542-577 | an image is adopted exactly if behind the data it ends in a trailer that a checkpoint of this very file would write, checksum and all |
| `Trailer.OnlyItsOwn` | src/proto/transfer.cpp:371-373 | a whole trailer is adopted by a session for the same identity, size and chunk size and by no other |
| `Layout.TrailerLayout` | src/proto/transfer.cpp:328-330 | bitmap, identity, size, chunk size, chunk count, checksum and magic at their byte positions |
| `Trailer.Restore` | src/proto/transfer.cpp:375-383 | marked chunks count as full, others as empty, and the resumed bytes are their sum |
| `CrashResume.CountedChunk` | src/proto/transfer.cpp:455 | a written byte's chunk always has a counter |
| `CrashResume.CountWrite` | src/proto/transfer.cpp:450-457 | the loop counts a write slice by slice, each byte once and against its own chunk |
| `CrashResume.CountWriteIsSteps` | src/proto/transfer.cpp:447-457 | that loop is a run of the machine's counting steps and leaves nothing of the write uncounted |
| `CrashResume.FullIsRight` | src/proto/transfer.cpp:469-473 | a full counter means that every byte of the chunk is written, also when several lanes share it; that no byte is written in full twice is `FileSession.EveryWriteIsAStep` |
| `CrashResume.StepKeepsInv` | src/proto/transfer.cpp:423-485 | every step of writers and checkpoint keeps every mark a crash might leave true |
| `CrashResume.CrashIsTrustworthy` | src/proto/transfer.cpp:542-577 | an image left by a crash at any step, if adopted, marks only chunks that hold the source's bytes |
| `CrashResume.EverySessionIsTrustworthy` | src/proto/transfer.cpp:359-399 | through any number of sessions, each ended by a crash or by the end of its process with bytes still unsynced, every image marks only what is there for good, given that the first image was safe |
| `CrashResume.PassedIsSound` | src/proto/transfer.cpp:494-524 | however a session ends, what the next one finds is safe to adopt now and stays so through a later crash |
| `CrashResume.BegunInv` | src/proto/transfer.cpp:359-399 | a session begun from a safe image, adopted or not, durable or not, starts in a sound state |
| `CrashResume.SafeForEveryContent` | src/proto/transfer.cpp:542-577 | whatever the sender's bytes, an image is safe to start from exactly if it is not adopted or marks no chunk |
| `CrashResume.FromNothing` | src/proto/transfer.cpp:347-357 | with no partial file at first every session is safe |
| `CrashResume.SwitchIsSound` | src/proto/transfer.cpp:371-373 | what a session of another file leaves is safe if it ends in that file's trailer or is not adopted |
| `CrashResume.SafeSwitches` | src/proto/transfer.cpp:359-399 | what a session leaves is safe for another file, whatever that contains, exactly if the other does not adopt it or no crash could leave a mark in it; ending in the first file's trailer rules adoption out |
| `CrashResume.StrayTrailerInData` | src/proto/transfer.cpp:542-577 | one of the two has to hold: data that itself ends in a trailer of the second file is adopted |
| `CrashResume.EverySwitchIsTrustworthy` | src/proto/transfer.cpp:359-399 | through any number of sessions of different files over one partial file, each takes over only what is true of its own |
| `CrashResume.CheckpointTakes` | src/proto/transfer.cpp:462-485 | after a complete checkpoint the next session adopts it and finds exactly the chunks of the snapshot |
| `CrashResume.CompleteIsClaimed` | src/proto/transfer.cpp:469-473 | a chunk that is complete before a snapshot gets to it is marked by it, and by every later one, beside any writes |
| `CrashResume.RestoreIsKept` | src/proto/transfer.cpp:375-383 | the counters set from an adopted image are those of its marked chunks |
| `CrashResume.ForgedImageIsBelieved` | src/proto/transfer.cpp:542-577 | a condition on the first image is needed: bytes that end like a trailer are adopted |
| `FileSession.EveryWriteIsAStep` | src/proto/transfer.cpp:818-857 | every write of every lane, with the bytes its packet carries, is a step the file's machine allows: a block of source bytes none of which was written in full before, or a partial write of source bytes |
| `FileSession.NotCountedBefore` | src/proto/transfer.cpp:450-457 | a byte of a block not yet written is neither counted nor due to be, in any lane: no byte is written in full twice |
| `FileSession.FileRuns` | src/proto/transfer.cpp:423-485 | any session of interleaved lanes, seen from the file, is a run of writers and checkpoint |
| `FileSession.LanesWeave` | src/proto/transfer.cpp:2394-2404 | and, seen from the lanes, an interleaving of them |
| `FileSession.AskIsRight` | src/proto/transfer.cpp:1213-1224 | whenever a lane asks, beside others already writing, the file holds whatever it does not ask for |
| `FileSession.AskedLanesSplit` | src/proto/transfer.cpp:1213-1224 | a session begun from any safe image splits the file: each lane asks for every byte its part lacked at the start |
| `FileSession.ActKeepsInv` | src/proto/transfer.cpp:423-485 | every act of lanes, writers, counters and checkpoint keeps lanes and file consistent |
| `FileSession.EveryTransferIsTrustworthy` | src/proto/transfer.cpp:359-399 | through any number of interrupted sessions of any number of lanes, every image left is safe to resume from |
| `FileSession.FileIsTheSource` | src/proto/transfer.cpp:494-507 | once all lanes of a session, resumed or not, are done, the file is the sender's byte for byte |
| `FileSession.TransfersFromNothing` | src/proto/transfer.cpp:494-507 | so after any interrupted sessions from no file at all, the first session that is done leaves exactly the sender's bytes |
| `Wire.Put` | include/fuse/proto/wire.hpp:175-193 | the shift loop writes the big-endian bytes and touches nothing else |
| `Wire.Get` | include/fuse/proto/wire.hpp:200-221 | the loop reads the big-endian value, which fits its width |
| `Wire.FirstByteWeighsMost` | include/fuse/proto/wire.hpp:4-12 | numbers are big-endian |
| `Wire.PackUnpack` | include/fuse/proto/wire.hpp:163-221 | reading a list of fields and writing it are inverse, both ways |
| `Wire.AreaIs` | include/fuse/proto/wire.hpp:223-240 | iterating an extension area gives exactly the entries appended to it, and nothing else iterates to them |
| `Wire.AppendExtension` | include/fuse/proto/wire.hpp:233-240 | appends the entry or, if it does not fit, returns 0 and changes nothing |
| `Wire.ExtensionsAcceptable` | include/fuse/proto/wire.hpp:242-250 | true exactly if the area parses completely and no entry is critical |
| `Wire.AcceptableIs` | include/fuse/proto/wire.hpp:242-250 | an area put together from well-formed entries is acceptable exactly if none of their types is 0x8000 or more |
| `Codec.ParseIs` | src/proto/control.cpp:59-247 | a byte string parses to a field list exactly if it starts with that list's encoding |
| `Codec.DecodeIs` | src/proto/control.cpp:34-316 | a byte string decodes to a message exactly if the message is valid and the string starts with its encoding |
| `Codec.RoundTrip` | src/proto/control.cpp:34-316 | decode(encode(m)) = m, whatever follows |
| `Codec.OneKindDecodes` | src/proto/control.cpp:19-30 | at most one kind of message decodes from any byte string |
| `Codec.EncodingsAreDistinct` | src/proto/block.cpp:42-104 | two messages that one datagram starts with are the same |
| `Codec.Encode` | src/proto/control.cpp:59-157 | the length written, or 0 with the buffer untouched exactly when the message is refused or does not fit |
| `Codec.EncodedDecodes` | src/proto/control.cpp:59-107 | what is encoded decodes again, except exactly a StreamStart with an unacceptable extension area |
| `Codec.ValidIsNotRefused` | src/proto/control.cpp:59-66 | no message that a decoder would accept is refused by its encoder |
| `Layout.DataLayout` | src/proto/block.cpp:42-70 | every field of a DATA datagram at its byte position |
| `Layout.AckLayout` | src/proto/control.cpp:109-125 | the same for an ACK, mask word by mask word |
| `Layout.StartLayout` | src/proto/control.cpp:59-82 | the same for StreamStart, salt and extensions included |
| `Layout.NackLayout` | src/proto/control.cpp:142-157 | the same for a NACK and each number it lists |
| `Layout.RangesLayout` | src/proto/control.cpp:205-224 | the same for a resume answer and each range |
| `Layout.DigestLayout` | src/proto/control.cpp:249-259 | the same for the file digest |
| `Layout.ShortLayouts` | src/proto/control.cpp:34-42 | the same for heartbeat, close, retry and path probe |
| `Codec.DecodeFields` | src/proto/control.cpp:84-176 | the decoder loop reads only inside the datagram and computes the parse, for any bytes |
| `Codec.MismatchIsUnderstood` | src/proto/block.cpp:18-40 | a version-mismatch reply tells its version to every other version, and is never a message nor something to answer |
| `Codec.ForeignDecodesNothing` | src/proto/block.cpp:7-21 | a datagram of another version decodes as nothing |
| `SetupCodec.DecodeIs` | src/proto/setup.cpp:26-115 | a SETUP body decodes to a payload exactly if it is that payload's serialisation, with nothing after it |
| `SetupCodec.DecodeData` | src/proto/setup.cpp:72-115 | the decoder as it runs |
| `Layout.SetupLayout` | src/proto/setup.cpp:26-52 | version, workers, stream count and extension area of a SETUP body at their byte positions |
| `Layout.StreamLayout` | src/proto/setup.cpp:39-46 | the five fields of each stream at theirs |
| `Layout.HashLayout` | src/proto/setup.cpp:117-132 | hash and number of a HASH-REPLY or FINACK at theirs |
| `Setup.PeekIs` | src/proto/setup.cpp:117-145 | reading a SETUP datagram inverts writing it; hash messages have exactly their length |
| `Setup.PayloadValid` | src/proto/setup.cpp:9-24 | true exactly for our version, at most 64 streams, sizes and windows in range, ids distinct |
| `Setup.UsableIdsAreDistinct` | src/proto/setup.cpp:9-24 | a usable payload has as many distinct ids as streams |
| `Setup.StepKeepsInv` | src/proto/setup.cpp:168-278 | every delivery, corruption of DATA and timer keeps the handshake invariant |
| `Setup.Agreement` | src/proto/setup.cpp:157-260 | a completed responder has the initiator's payload; its FINACK answers its own HASH-REPLY with its current number and is no leftover of an earlier session |
| `Setup.FinAckCompletes` | src/proto/setup.cpp:247-257 | in every run a FINACK completes the responder exactly if it answers the HASH-REPLY sent last |
| `Setup.HandshakeCompletes` | src/proto/setup.cpp:157-260 | with nothing lost, Start and three messages complete both ends with the payload offered |
| `Setup.NoHandshakeIsADeadEnd` | src/proto/setup.cpp:157-260 | from every reachable state in which the responder is not complete the same three messages still complete it |
| `Setup.OffersAreOne` | src/proto/setup.cpp:157-208 | every DATA ever sent is the one offer |
| `Setup.RepeatedDataIsHarmless` | src/proto/setup.cpp:237-239 | asked again with the same configuration the responder keeps its number |
| `Setup.OtherDataGetsNewNumber` | src/proto/setup.cpp:237-239 | another configuration gets a number never drawn before |
| `Setup.UnansweredInitiator` | src/proto/setup.cpp:195-210 | unanswered, the initiator resends DATA on every timeout up to the cap, and then fails |
| `Setup.UnansweredResponder` | src/proto/setup.cpp:262-278 | unanswered, the responder resends its HASH-REPLY on every timeout up to the cap, and then fails |
| `Setup.TooSoonToResend` | src/proto/setup.cpp:195-203 | nothing is resent before the timeout has passed since the last datagram out |
| `Setup.ConfigIsFrozen` | src/proto/setup.cpp:220-228 | once complete, configuration and number never change again |
| `Setup.ResendsAreBounded` | src/proto/setup.cpp:192-206 | timer resends never exceed the retry cap at either end |
| `Setup.SetupInitiator.constructor` | src/proto/setup.cpp:149-155 | the hash offered is that of the serialised payload |
| `Setup.SetupInitiator.OnDatagram` | src/proto/setup.cpp:168-190 | behaves as the initiator of the handshake machine |
| `Setup.SetupInitiator.OnTimeout` | src/proto/setup.cpp:192-206 | resends DATA, or fails at the cap, exactly when the machine does |
| `Setup.SetupResponder.OnDatagram` | src/proto/setup.cpp:213-260 | behaves as the responder of the handshake machine on any bytes |
| `Setup.SetupResponder.OnTimeout` | src/proto/setup.cpp:262-278 | resends HASH-REPLY, or fails at the cap, exactly when the machine does |
| `Sdk.CutMessage` | src/proto/sdk.cpp:915-939 | the block loop cuts a message into the blocks of `Split` |
| `Sdk.AllPlaced` | src/proto/sdk.cpp:370-378 | once every block is in place the buffer is the message |
| `Sdk.StepKeepsInv` | src/proto/sdk.cpp:305-395 | every step of senders, network and receiver keeps the connection invariant; that a resend is the block first sent is `SdkWire.ResendsAreTheBlocks` |
| `Sdk.AdmittedExactly` | src/proto/sdk.cpp:332-378 | a block is taken exactly if the inbox is below its limit and its number below the end of the window, in any order; nothing taken is dropped |
| `Sdk.GateOpenMeansDelivered` | src/proto/sdk.cpp:894-945 | when no send is under way everything sent has been delivered |
| `Sdk.MessagesArriveWhole` | src/proto/sdk.cpp:883-950 | with any number of sending threads blocks never interleave, the inbox history is the messages sent in order but for at most the last, and every send that returned is in it |
| `Sdk.InboxIsBounded` | src/proto/sdk.cpp:332-395 | the byte count is the sum of the queued sizes and stays below the inbox limit plus one message |
| `SdkProgress.CanAlwaysReturn` | src/proto/sdk.cpp:883-950 | from any state the thread whose turn it is can finish: its message delivered, its send returned |
| `SdkProgress.NoSendIsADeadEnd` | src/proto/sdk.cpp:883-950 | after any run everything begun can still be delivered and returned, the waiting threads left waiting |
| `SdkProgress.TurnComes` | src/proto/sdk.cpp:904-919 | after any run any waiting thread can get its turn and have its message delivered |
| `Sdk.FuseConn.HandleData` | src/proto/sdk.cpp:305-395 | on the real receive window: admits, lays down and completes as the machine does |
| `Sdk.FuseConn.Receive` | src/proto/sdk.cpp:952-972 | takes the oldest message; a buffer too small leaves it queued |
| `SdkWire.ActRefines` | src/proto/sdk.cpp:271-303 | sending, resending from registry and `tx_meta`, acknowledging and delivering keep both rings in step, and are the steps of the connection |
| `SdkWire.ResendsAreTheBlocks` | src/proto/sdk.cpp:271-303 | in every run whatever was resent is the block first sent under its number, every unacknowledged number can be resent, and messages arrive whole |
| `SdkWire.SameAssociatedData` | src/proto/sdk.cpp:92-103 | two transmissions of one number get the same associated data exactly if both or neither are resends, or the retransmission bit is masked as in transfer.cpp |
| `SdkWire.FirstResendDiffers` | src/proto/sdk.cpp:280-290 | a run in which a first copy and its resend get different associated data |
| `Reassembly.Unordered.OnBlock` | src/proto/reassembly.cpp:33-61 | accepts exactly new numbers of the window, writes and surfaces each at once |
| `Reassembly.Ordered.OnBlock` | src/proto/reassembly.cpp:62-106 | accepts exactly the same, writes at once, and surfaces the next numbers in order |
| `Reassembly.Ordered.Drain` | src/proto/reassembly.cpp:95-104 | surfaces the whole contiguous run and stops at the first gap |
| `Reassembly.FeedBoth` | src/proto/reassembly.cpp:33-106 | fed the same arrivals both modes hold the same blocks and bytes, bit for slot; ordered delivery is 0, 1, 2, ..., the unordered count the number of distinct blocks |
| `Reassembly.TakenIs` | src/proto/reassembly.cpp:33-80 | a block is taken exactly if it lies below the end of the window |
| `Reassembly.AllBlocksAreTheData` | src/proto/reassembly.cpp:20-31 | once every block of a source has been accepted, in any order and with any repetition, the sink is the source |
| `Reassembly.UnorderedComplete` | include/fuse/proto/reassembly.hpp:46 | unordered completion means every block below the total exactly if no block at or above it was accepted |
| `Reassembly.UnorderedCompletesEarly` | include/fuse/proto/reassembly.hpp:46 | a stray block completes a stream without block 0 |
| `Reassembly.OrderedComplete` | include/fuse/proto/reassembly.hpp:46 | ordered completion means every block below the total and not the block numbered total |
| `Congestion.EpochInBounds` | include/fuse/proto/congestion.hpp:160-175 | an epoch keeps the window in [floor, max] except exactly when the growth wraps 32 bits to below the floor |
| `Congestion.GrowthCanWrap` | include/fuse/proto/congestion.hpp:171-172 | a growth step of 2^32 - 1 does that in the first epoch of a new controller |
| `Congestion.StepsInUseLeaveRoom` | src/proto/transfer.cpp:1688 | with a step of at most 16 a new controller leaves room under any 16-bit maximum |
| `Congestion.StartsAtAnEighth` | include/fuse/proto/congestion.hpp:41-58 | a new window is an eighth of the maximum, not under the floor; a disabled one the maximum |
| `Congestion.WindowStaysInBounds` | include/fuse/proto/congestion.hpp:156-176 | for any step that leaves room the window stays in bounds over any number of epochs |
| `Congestion.AtMostOneHalving` | include/fuse/proto/congestion.hpp:161-175 | over any number of epochs a loss halves the window at most once |
| `Congestion.LossHalves` | include/fuse/proto/congestion.hpp:161-165 | and it does halve it, down to the floor, and ends slow start |
| `Congestion.CleanGrowth` | include/fuse/proto/congestion.hpp:170-174 | without losses the window climbs one step every `clean_windows_to_grow` epochs, up to the maximum |
| `Congestion.SlowStartDoubles` | include/fuse/proto/congestion.hpp:166-169 | in slow start it doubles every epoch until the maximum |
| `Congestion.SlowStartEnds` | include/fuse/proto/congestion.hpp:166-169 | slow start ends with the epoch that reaches the maximum |
| `Congestion.PollComposes` | include/fuse/proto/congestion.hpp:147-177 | polling at t1 and then t2 equals polling at t2, within the 4096-epoch guard |
| `Congestion.PollCatchesUp` | include/fuse/proto/congestion.hpp:147-160 | after a poll less than a round trip is left over, or 4096 epochs have passed |
| `Congestion.EchoIsRoundTrip` | include/fuse/proto/congestion.hpp:32-35 | whatever the clock's random offset, the sample is the true round trip |
| `Congestion.EstimateIsBetween` | include/fuse/proto/congestion.hpp:79-91 | SRTT lies between the smallest and the largest sample, RTTVAR below the largest |
| `Congestion.Gains` | include/fuse/proto/congestion.hpp:78-92 | SRTT moves an eighth of the way to the sample, RTTVAR a quarter of the way to the deviation |
| `Congestion.EstimateSettles` | include/fuse/proto/congestion.hpp:78-92 | under equal samples SRTT closes in on them, sample by sample, to within 8 ns |
| `Congestion.RtoInBounds` | include/fuse/proto/congestion.hpp:100-113 | the timeout lies in [min, max] |
| `Congestion.RtoAtMostDoubles` | include/fuse/proto/congestion.hpp:100-120 | one more timeout never shortens it and at most doubles it |
| `Congestion.RtoDoubles` | include/fuse/proto/congestion.hpp:101-123 | each of the first six timeouts in a row doubles the timeout exactly, but for the maximum |
| `Congestion.RtoIsLeast` | include/fuse/proto/congestion.hpp:101-114 | without backoff it is the least value no less than SRTT + 4 RTTVAR, SRTT + 1 ms and 2 SRTT |
| `Congestion.TimeoutRunIsOneLoss` | include/fuse/proto/congestion.hpp:117-120 | a run of timeouts of any length is one loss |
| `Congestion.EveryRunIsSane` | include/fuse/proto/congestion.hpp:79-177 | in every run of events the window is in bounds and the estimates too small to overflow |
| `Congestion.DisabledNeverMoves` | include/fuse/proto/congestion.hpp:39-41 | without congestion control the window never moves |
| `Congestion.CongestionController.constructor` | include/fuse/proto/congestion.hpp:42-56 | the initial window is in bounds |
| `Congestion.CongestionController.PollAt` | include/fuse/proto/congestion.hpp:147-177 | the loop applies as many epochs as have passed, at most 4096 |
| `Congestion.CongestionController.RtoNs` | include/fuse/proto/congestion.hpp:100-113 | in 64-bit arithmetic, for estimates under a minute, exactly the timeout without overflow |
| `KeySchedule.LaneKeySchedule.CipherFor` | src/proto/session_crypto.cpp:307-329 | whatever was cached or evicted, the answer is the key of the block's own epoch |
| `KeySchedule.KeyCoversAtMost` | include/fuse/proto/session_crypto.hpp:150-153 | no key covers more than 2^22 blocks of a lane |
| `KeySchedule.EpochIsShift` | src/proto/session_crypto.cpp:311 | the epoch is the number shifted right by 22 |
| `KeySchedule.DataNoncesDiffer` | src/proto/session_crypto.cpp:88-96 | data nonces determine lane and number |
| `KeySchedule.ControlNoncesDiffer` | src/proto/session_crypto.cpp:225-230 | control nonces determine lane, counter and direction |
| `KeySchedule.NoncesAreDisjoint` | src/proto/session_crypto.cpp:225-230 | no control nonce is a data nonce |
| `KeySchedule.NonceLayout` | src/proto/session_crypto.cpp:88-96 | lane, number and the two closing bytes of a nonce at their positions |
| `KeySchedule.AadBinds` | src/proto/transfer.cpp:105-112 | associated data is equal exactly if lane, number, offset and last-block mark are |
| `KeySchedule.ResendsAreIdentical` | src/proto/transfer.cpp:1736-1760 | in every run two transmissions under the same nonce are the same block, with the same associated data and the same sealed bytes |

## Where code and documentation differ

- The comment on `is_complete()` in reassembly.hpp says that it is true only once every block below
  the total has been delivered. The code counts; `UnorderedComplete` gives the exact condition.
- `CongestionController` documents its window as staying between floor and maximum.
  `EpochInBounds` gives the one exception of the 32-bit sum.
- transfer.cpp explains why the associated data of a resend must not differ and masks the
  retransmission bit; sdk.cpp does not mask it. `SameAssociatedData` says exactly when they differ.
- A number can be named by a packet slot and by a verdict at the same moment, between `commit` and
  `consume`. "In flight in at most one ring" is proved of blocks without a published verdict.

## Left out

- Sockets, kernel timeouts, segmentation offload, cancellation, status codes, statistics and progress callbacks.
- The bodies of AEAD, HKDF, the digest, SipHash and the checksum; DTLS; `http.cpp`; the legacy C scaffold.
- The whole-file digest at the end of a resumed transfer, address and path validation, and the retry token.
- `pacing_interval_ns`, which is floating point, and the adaptive block size: `PackBatch` takes any size.
- The receiver-advertised window: `TrySend` takes the resulting limit in bytes as a parameter.
- Sealing failures in the send loop, after which a block is stored but not yet numbered.
- The orchestrator: multiplexed workers are any interleaving of stream steps.
- The retransmission backlog of the multiplexed sender: a resend may happen at any time.
- The SDK after a failed or timed-out send, and its HELLO exchange.
- SpscRing.SpscQueue.RoundUpPow2: requests above 2^63 slots, for which the rounding loop does not end.
- Resume.Coarsen: a limit of 0, for which the loop does not end on one range; the source's limit is 4096.
- Congestion.CongestionController.RtoNs: a maximum above 2^63 ns, for which the doubling could wrap.
- Tiling.BlocksPartitionRanges: the one empty last block of an empty lane is not in its list; `LaneSender.SendKeepsInv` covers it.
- Lanes.WholeTransferArrives: that each lane asks for what is missing is a hypothesis here; `FileSession.AskedLanesSplit` proves it of every session over a file.
- FileSession.EveryTransferIsTrustworthy: the length of the file is not tracked; an image may be any front part of what was written, and one without the full length is not adopted.
- Pipeline.StepKeepsInv: a batch is authenticated and written block by block; joining adjacent blocks into one system call is not modelled, a joined write that fails shows as failures of its blocks.
- SdkWire.ResendsAreTheBlocks: a connection without sealing failures, after which a block is stored but its number reused.
- CrashResume.EverySwitchIsTrustworthy: two files with the same identity and sizes but different bytes are not told apart; nothing in a trailer could.
- Setup.Agreement: HASH-REPLYs are those that were sent, now or earlier; only DATA is corrupted at will.
- Resume.Missing: a lane lies inside the file, as the receiver checks before asking.
- Codec.Encode: a DATA block with a length but no payload pointer is not modelled.
