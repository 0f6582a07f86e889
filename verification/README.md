# A verified model of the WebSocket framework and of the libuv it runs on

The repository is a WebSocket framework (`src/ws`) that ships the libuv it runs on (`deps/libuv`). This project models
the parts of both that carry state across calls, and proves what they promise. `dafny verify dfyconfig.toml` checks all
of it.

## The WebSocket layer

- `Bytes`, `Membuf` - octets, big-endian length fields, masking, and the growable buffer `membuf_t` as a class over an
  array.
- `Frame` - RFC 6455 framing as a function on octet strings: what one frame at the front of a string is, and the frame
  that the generator writes.
- `Handle` - `websocket_handle` and the parser that starts over from the retained octets on every call, proved to give
  the verdict of `Frame` on what was pending plus what is new.
- `Generator` - the frame generator and the fragmenting loop.
- `Reassembly`, `Fragments` - what a connection delivers for a stream of octets; that cuts do not matter; the end-to-end
  round trip, for the generator's messages and for messages that any peer fragments and masks in its own way.
- `ReadTurns`, `Room` - the read loop as turns, and when it ends; when the buffers are large enough.
- `ReadLoop` - the server's and the client's read loops, both proved against `ReadTurns` and `Reassembly`, hence
  equivalent; and generator and read loop together.
- `SlotRing`, `Posting`, `SplitSend`, `SlotUse` - the ring of async slots, the posting of a split message to a window of
  it, the sweep of the async handles that finds its parts, and what becomes of the packets and slots over whole runs.
- `Sha1`, `Sha1Example` - SHA-1 as FIPS 180-4 has it, and the streaming implementation with its circular schedule and
  rotated registers; and the standard's example, the digest of "abc", worked out.

An empty frame is a special case in the parser: it returns before it reads a mask or drops the header, so the frame's
two octets stay in the buffer as its body. The model does the same.

## libuv

- `AsyncIo` - `uv_async_send` and `uv__async_io` as atomic steps of any number of senders and one loop thread.
- `ThreadPool` - submit, run, cancel, done and exit as atomic steps of workers, loop threads and client threads, with
  `mutex`, one `wq_mutex` per loop and the condition variable, including spurious wakeups.
- `PoolRuns`, `Cancel` - what whole runs of the pool do with the items: in which order they run and are done, that each
  comes to its end, and exactly which ones can be cancelled.
- `Heap` - the linked binary heap over pointers, with the level order as a ghost sequence.
- `RbLinks`, `RbBalance`, `RbTree` - the red-black tree over pointers. A ghost tree with one subtree in focus says what
  every node's fields are; each write of the source is proved to lead to the fields of the next tree, and order, colours
  and black heights are argued on trees.
- `Queue`, `LoopWatcher` - the intrusive circular lists, and the sweep over prepare, check and idle handles while
  callbacks start and stop any of them. A callback is an arbitrary list of actions.
- `Inet4`, `Inet6`, `Inet6Text` - the address codecs, with both parsers as loops over their buffers; and the texts of
  RFC 4291, defined by their digits, as exactly what the parsers accept.
- `PowerOfTwo`, `Watchers` - the I/O watcher table, its growth, and the drain of the watcher queue.

Where the source repeats code for two sides (the red-black fixups) the model has one text with a side; where it unrolls
(the eighty rounds of SHA-1) the model repeats the group of five that the source repeats.

## Where the code does not do what one would expect

- After a frame with a bad 64-bit length the parser's buffer is never reset. The parser finds out at the sixth octet of
  the frame; with more octets left in the read the loops of server and client never end
  (`ReadTurns.SpinsPastSixthOctet`), and they end if and only if no such frame is met or its sixth octet is the last one
  of the read (`ReadTurns.LoopEndsIff`).
- A close frame stops reading, but the rest of the read it comes in is still processed. So what follows a close frame is
  delivered or not by how the octets were cut (`Reassembly.ReadsStopAtClose`); all cuts have the same calls if and only
  if no call follows the first close frame (`Reassembly.CutsAgreeIff`).
- `membuf_reserve` compares two 32-bit values. From a power-of-two capacity it returns with room for what is asked if
  and only if there was room already or at most 2^31 octets are needed in all (`MembufModule.ReserveSucceedsIff`);
  otherwise its loop does not end (`MembufModule.ReserveSpins`), or ends with too little when the needed size is small
  modulo 2^32 (`MembufModule.ReserveFallsShort`).
- `membuf_remove` with a count of zero and an offset inside a full buffer stores its closing zero at the index of the
  buffer's length, and in no other case outside the buffer (`MembufModule.StoreIndexFits`).
- `acquireManyUvAsync` never tries the last possible start. It finds free consecutive slots if and only if they neither
  straddle the head of the ring nor end right before it (`SlotRings.ObtainableIff`), and never as many as there are
  (`SlotRings.AllSlotsMissed`).
- `split_ont_size_to_multi_parts` draws modulo the average: it comes to an end if and only if there is one part only or
  the average is at least 2 (`SplitSend.SplitsIff`). A message of one octet in three parts draws for ever
  (`SplitSend.ThreeInThreeParts`), and a size of 2 divides by zero (`SplitSend.TwoInThreeParts`).
- `next_power_of_two` wraps around to 0 above 2^31 (`PowerOfTwo.NextPowerOfTwo`). So of the descriptors that
  `uv__io_start` accepts the last one, 2^31 - 2, makes it allocate a table without slots (`Watchers.GrowthFitsIff`); it is
  modelled for all others.
- The bit count of `hash1_final` is that of the message modulo 2^38 octets (`Sha1.LengthExact`).
- In `heap_remove` the test of the removed node against the root can never hold, because the link that would make it
  true has just been cleared; in `inet_ntop6` the test for a run of seven zeros is never reached; in `hash1_final` the
  carry between the two halves never occurs; in `inet_pton4` a fifth octet is refused at its dot already. The models keep
  what these tests do when they do not hold.

## Model

| member | source | states |
|---|---|---|
| `Bytes.FieldRoundTrip` | src/ws/common.cpp:288-329 | writing the length that was read restores every field: its octets, most significant first, are determined by the length |
| `Bytes.LengthFieldRoundTrip` | src/ws/common.cpp:288-329 | reading a two- or four-byte length gives back every length that fits the field |
| `Bytes.XorCancels` | src/ws/wsutil.cpp:94-99 | exclusive or with the same octet twice is the identity on octets |
| `Bytes.XorIsCaret` | src/ws/wsutil.cpp:94-99 | it is the machine's exclusive or of two octets |
| `Bytes.MaskIsInvolution` | src/ws/wsutil.cpp:94-99 | masking twice with one four-octet key gives back any data (section 5.3 of RFC 6455) |
| `MembufModule.LeastDoublingIsLeast` | src/ws/membuf.cpp:73-90 | the doubling loop ends at a doubling of its start that suffices and is less than twice what is needed |
| `MembufModule.DoublingStopsIff` | src/ws/membuf.cpp:76-79 | the loop with both sides in 32 bits, from any power of two, ends if and only if the needed size modulo 2^32 is zero, or can be reached below 2^32 and is at most 2^31 |
| `MembufModule.ReserveSucceedsIff` | src/ws/membuf.cpp:73-90 | from any power-of-two capacity, reserving returns with room if and only if there was room already or at most 2^31 octets are needed in all |
| `MembufModule.ReserveFromNothing` | src/ws/membuf.cpp:73-90 | from an empty allocation, if and only if less than 2^32 octets are asked for |
| `MembufModule.ReserveSpins` | src/ws/membuf.cpp:76-79 | one octet more than 2^31 in a fresh buffer: the loop never ends |
| `MembufModule.ReserveFallsShort` | src/ws/membuf.cpp:76-79 | 2^32 octets needed: the loop ends at once with 256 |
| `MembufModule.Membuf.constructor` | src/ws/membuf.cpp:21-25 | an empty buffer of the given capacity |
| `MembufModule.Membuf.Clear` | src/ws/membuf.cpp:45-65 | the contents become empty; the allocation shrinks exactly when it is larger than a limit above 1 |
| `MembufModule.Membuf.DoubleUntil` | src/ws/membuf.cpp:76-79 | the loop terminates without 32-bit overflow at the least sufficient doubling |
| `MembufModule.Membuf.Reserve` | src/ws/membuf.cpp:73-90 | where it succeeds, the contents survive, room for the extra octets is there, and the new capacity is the least doubling |
| `MembufModule.Membuf.Append` | src/ws/membuf.cpp:116-123 | the contents become the old ones followed by the new octets |
| `MembufModule.Membuf.Remove` | src/ws/membuf.cpp:169-181 | the contents lose exactly the given range; an offset past the end changes nothing |
| `MembufModule.StoreIndexFits` | src/ws/membuf.cpp:169-181 | the closing zero is stored inside the buffer, unless nothing is removed from a full one: then at the index of its length |
| `MembufModule.Membuf.MaskFrom` | src/ws/wsutil.cpp:94-99 | the octets from an offset on are masked where they lie, those before it are untouched |
| `MembufModule.GrowthSuffices` | src/ws/membuf.cpp:73-90 | a grown capacity suffices and is at least twice the old one |
| `MembufModule.CopiesIff` | src/ws/membuf.cpp:73-90 | an append copies the octets already there exactly when the new ones do not fit |
| `MembufModule.AppendsCopyLessThanTwice` | src/ws/membuf.cpp:45-122 | in any append-only run from an empty buffer with capacity, reallocations copy less than twice the final size |
| `Frames.VerdictIsStable` | src/ws/wsutil.cpp:164-263 | a complete or malformed verdict is the same however many octets follow |
| `Frames.FailureStays` | src/ws/wsutil.cpp:223-233 | with the six octets of a malformed frame pending every further parse fails again |
| `Frames.UndecidedPrefix` | src/ws/wsutil.cpp:164-263 | every prefix of an incomplete frame is incomplete |
| `Frames.WholeFitsExactly` | src/ws/wsutil.cpp:164-263 | a complete frame needs every octet up to its size and none beyond |
| `Frames.FrameDecides` | src/ws/wsutil.cpp:164-263 | the verdict depends on the octets of the frame alone |
| `Frames.FrameEndsPastPending` | src/ws/wsutil.cpp:164-263 | a parse that completes takes at least one octet that was not pending before |
| `Frames.LengthInFront` | src/ws/wsutil.cpp:195-250 | the announced length does not depend on what follows the header |
| `Frames.HeaderFields` | src/ws/wsutil.cpp:283-353 | the header written for a payload of 1 to 2^32 - 1 octets reads back as FIN, opcode, mask flag, length and key |
| `Frames.HeaderThenBody` | src/ws/wsutil.cpp:164-263 | a header followed by as many octets as it announces is one whole frame |
| `Frames.KeyedRoundTrip` | src/ws/wsutil.cpp:164-263 | parsing a frame followed by anything recovers FIN, opcode and payload and stops at its end, in all three length forms, masked with any key or not (sections 5.2 and 5.3 of RFC 6455) |
| `Frames.FrameRoundTrip` | src/ws/wsutil.cpp:283-353 | the same for the frames that the generator writes |
| `Frames.NothingIff` | src/ws/wsutil.cpp:320-353 | nothing is written exactly for payloads of 2^32 octets and more |
| `Frames.FieldsAreBits` | src/ws/wsutil.cpp:184-192 | FIN, opcode, mask flag and 7-bit length are the bits of the first two octets, whatever the reserved ones are |
| `Frames.BodyIsUnmasked` | src/ws/wsutil.cpp:164-263 | each octet of a masked frame's body is the octet on the wire, exclusive-or the key octet at its index modulo 4 |
| `Frames.MaskedHello` | src/ws/wsutil.cpp:164-263 | the masked "Hello" of section 5.7 of RFC 6455, octet by octet |
| `Frames.StandardHeaders` | src/ws/wsutil.cpp:283-353 | the other headers of section 5.7 of RFC 6455, and the generator's header with its fixed mask |
| `Handles.PendingVerdicts` | src/ws/wsutil.cpp:164-263 | what a read adds to a pending frame: at least one octet taken, never one past the frame |
| `Handles.Handle.constructor` | src/ws/CWSServer.cpp:125-151 | a fresh connection has nothing pending and nothing merged |
| `Handles.Handle.ReadChar` | src/ws/wsutil.cpp:116-152 | the next octets of buffer and data together, the buffer keeping all that was seen; fails exactly when there are too few, having taken all |
| `Handles.Handle.ReadLength` | src/ws/wsutil.cpp:195-250 | the payload length in its three forms, or incomplete, or failed, as the frame definition says |
| `Handles.Handle.ReadBody` | src/ws/wsutil.cpp:201-262 | completes exactly when the frame is whole, leaving its unmasked body in the buffer and the count of octets taken |
| `Handles.Handle.FinishFrame` | src/ws/wsutil.cpp:255-261 | unmasking in place and dropping the header leave exactly the body |
| `Handles.Handle.ReadFirstTwo` | src/ws/wsutil.cpp:181-193 | FIN, opcode, mask flag and 7-bit length, or all data taken when there are fewer than two octets |
| `Handles.Handle.ParseWithPayload` | src/ws/wsutil.cpp:195-262 | verdict, buffer contents and read count of a frame with payload |
| `Handles.Handle.ParseFromHeader` | src/ws/wsutil.cpp:181-262 | verdict, buffer contents and read count for any pending octets and any data |
| `Handles.Handle.TryParse` | src/ws/wsutil.cpp:164-263 | every call gives the verdict on pending octets plus data: incomplete takes all, complete at least one octet and none past the frame; an incomplete buffer is a strict prefix of one frame |
| `Generator.FragmentLayout` | src/ws/wsutil.cpp:406-437 | a message of n octets is ceil(n / 65520) frames: opcode first, then continuations, FIN on the last only, none in the 64-bit form (section 5.4 of RFC 6455) |
| `Generator.FillHeader` | src/ws/wsutil.cpp:285-335 | the header array holds flags, opcode, mask bit and the shortest length form |
| `Generator.BuildHeader` | src/ws/wsutil.cpp:284-346 | the whole header, with the mask key when masked |
| `Generator.WriteLength` | src/ws/common.cpp:288-329 | the length octets are stored at their place and nothing else changes |
| `Generator.AppendFrame` | src/ws/wsutil.cpp:347-351 | header and payload, masked where it lies in the buffer, are appended |
| `Generator.GenerateFrame` | src/ws/wsutil.cpp:283-353 | exactly the encoded frame is appended |
| `Generator.GenerateFragment` | src/ws/wsutil.cpp:420-433 | the fragment gets the opcode or continuation, and FIN, by its number |
| `Generator.FragmentStep` | src/ws/wsutil.cpp:420-433 | what remains of a message is its next fragment and what remains then |
| `Generator.NextFragment` | src/ws/wsutil.cpp:420-433 | one turn appends one fragment of the message |
| `Generator.GenerateMessage` | src/ws/wsutil.cpp:406-437 | the fragmenting loop terminates and appends exactly the message's octets |
| `Reassembly.LeftoverIsUndecided` | src/ws/CWSServer.cpp:36-122 | what a read leaves pending is a strict prefix of one frame, or malformed |
| `Reassembly.DrainAppend` | src/ws/CWSServer.cpp:36-122 | processing s and then t is processing s followed by t |
| `Reassembly.FailureIsStable` | src/ws/CWSServer.cpp:36-122 | a malformed frame is found at the same place whatever follows |
| `Reassembly.ChunkIndependence` | src/ws/CWSServer.cpp:36-122 | reading a and then b gives the calls, pending octets and merge buffer of reading a followed by b |
| `Reassembly.CutsDoNotMatter` | src/ws/CWSServer.cpp:36-122 | and so for any number of reads: however the stream is cut, the calls are those of the stream in one read, up to and including the read with the first close frame; without a close frame everything is the same |
| `Reassembly.CutBehindCall` | src/ws/CWSServer.cpp:36-122 | behind the frame that makes a call the stream can be cut |
| `Reassembly.CutsAgreeIff` | src/ws/CWSServer.cpp:95-99 | every way to cut a stream has the same calls if and only if no call follows its first close frame |
| `Reassembly.ReadsStopAtClose` | src/ws/uvutil.cpp:72-82 | a text, a close frame and another text: in one read both texts are delivered, in two only the first |
| `Reassembly.EveryOpcode` | src/ws/CWSServer.cpp:45-112 | what opcodes 0 to 15 do, by number, for any frame of up to 125 octets as it is on the wire |
| `Reassembly.DrainContinuation` | src/ws/CWSServer.cpp:45-112 | continuation frames are merged and delivered once, at FIN |
| `Reassembly.DrainMessage` | src/ws/CWSServer.cpp:45-112 | one message, in however many fragments, is one call with identical octets, whatever the merge buffer held |
| `Reassembly.DrainWire` | src/ws/CWSServer.cpp:36-122 | a sequence of messages on the wire is one call each, in order, with nothing left over |
| `Reassembly.EndToEnd` | src/ws/CWSServer.cpp:36-122 | round trip: any non-empty text and binary messages, generated, concatenated and cut anywhere, give one call per message, in order, with identical octets |
| `Fragments.FrameDrains` | src/ws/CWSServer.cpp:45-112 | one frame of any peer, masked with any key, has the effect of the switch |
| `Fragments.ControlsDrain` | src/ws/CWSServer.cpp:93-112 | control frames, wherever they come, leave the merge buffer alone and make only the calls of their kind |
| `Fragments.PiecesDrain` | src/ws/CWSServer.cpp:45-92 | a message in any number of fragments, with control frames between them: the replies to these, and one call with the fragments' octets joined |
| `Fragments.AnyFragmentation` | src/ws/CWSServer.cpp:36-122 | whoever sends: messages fragmented anywhere, each frame masked with any key, control frames but close between, any behind the last message, octets cut anywhere; all calls in the order of the frames up to the read that closes the connection, among them one of `onData` per message with its octets |
| `Room.ShortStreamFits` | src/ws/membuf.cpp:73-90 | any stream of at most 2^31 octets, however cut, stays within the buffers |
| `Room.MessagesFit` | src/ws/membuf.cpp:73-90 | a stream of messages of any length does so if the longest message, a frame and the longest read fit together |
| `ReadTurns.TurnFits` | src/ws/CWSServer.cpp:39-121 | a turn never leaves more in the buffers and the read together than there was before |
| `ReadTurns.StuckTurn` | src/ws/CWSServer.cpp:39-121 | with a malformed frame pending a turn takes nothing and changes nothing, but for one more call to close |
| `ReadTurns.LoopEndsIff` | src/ws/CWSServer.cpp:39-121 | the loop ends if and only if no malformed frame is met or the sixth octet of the malformed one is the last of the read; never when one was pending before |
| `ReadTurns.EndsAtSixthOctet` | src/ws/CWSServer.cpp:39-121 | a read of six octets, malformed at the sixth, after which the loop ends |
| `ReadTurns.SpinsPastSixthOctet` | src/ws/CWSServer.cpp:39-121 | the same with one octet more, after which it never ends |
| `ReadTurns.TurnsOutcome` | src/ws/CWSServer.cpp:39-121 | a loop that ends leaves the calls, pending octets and merge buffer of the specification, and one call to close if it met a malformed frame |
| `ReadLoops.Connection.constructor` | src/ws/CWSServer.cpp:125-151 | a connection starts with nothing pending and no calls made |
| `ReadLoops.Connection.Dispatch` | src/ws/CWSServer.cpp:45-112 | the switch makes exactly the calls, and leaves exactly the merge buffer, of the frame's delivery |
| `ReadLoops.Connection.Turn` | src/ws/CWSServer.cpp:39-121 | one turn of the running loop is one turn of the specification: octets pending and merged, calls made, octets taken |
| `ReadLoops.Connection.OnReadServer` | src/ws/CWSServer.cpp:36-122 | wherever the loop ends it ends after the turns of the specification, with its calls, pending octets and merge buffer, also at a malformed frame |
| `ReadLoops.Connection.OnReadClient` | src/ws/CWSClient.cpp:56-141 | the client's loop, which does not leave on an incomplete frame, has the same trace and the same final state |
| `ReadLoops.Connection.Receive` | src/ws/CWSServer.cpp:125-151 | a run of reads, up to the one that closes the connection, has the outcome of the run of the specification, for server and client |
| `ReadLoops.ReceiveMessages` | src/ws/CWSServer.cpp:36-151 | a fresh connection fed any cut of the generated messages makes exactly their calls; only the sizes of messages and reads are bounded |
| `ReadLoops.ReceiveFragmented` | src/ws/CWSServer.cpp:36-151 | the same for messages fragmented and masked in any way, with control frames in between and a close frame behind; only the length of the stream is bounded |
| `ReadLoops.SendMessages` | src/ws/wsutil.cpp:406-437 | all messages, generated into one buffer, are the stream |
| `ReadLoops.Transfer` | src/ws/wsutil.cpp:406-437 | generator, cuts and read loop in one: the calls are the messages |
| `AsyncIo.StepKeepsInv` | deps/libuv/src/unix/async.c:59-154 | each atomic step of any sender or the loop keeps: a pending handle has a wakeup, or a sender about to write, or a place in the rest of the sweep |
| `AsyncIo.RunKeepsInv` | deps/libuv/src/unix/async.c:59-154 | and so does every run |
| `AsyncIo.OrderKept` | deps/libuv/src/unix/async.c:104-119 | a sweep never changes the order of the handles |
| `AsyncIo.SendTakesEffect` | deps/libuv/src/unix/async.c:59-68 | the step of a send that finds the flag set, or sets it, leaves the handle pending |
| `AsyncIo.PendingMoves` | deps/libuv/src/unix/async.c:59-154 | while a handle is pending some thread can take a step |
| `AsyncIo.StepLowersCost` | deps/libuv/src/unix/async.c:77-154 | every step threads take on their own lowers a bound |
| `AsyncIo.RunLength` | deps/libuv/src/unix/async.c:77-154 | so between new sends there are boundedly many steps |
| `AsyncIo.SendIsServed` | deps/libuv/src/unix/async.c:59-154 | no send is lost: a callback of the handle begins after it, and callbacks never outnumber sends |
| `SlotUse.SlotConserves` | src/ws/CAsyncs.cpp:36-82 | over any run, what was in a slot and is put into it is taken out by its callbacks, in order, or is still there |
| `SlotUse.WritesAreDue` | src/ws/CAsyncs.cpp:36-82 | what is written for a handle is what its callbacks find for a peer that is registered then; writes never outnumber the packets put into the slot |
| `SlotUse.NothingBehindUnregister` | src/ws/CAsyncs.cpp:36-82 | once a peer is taken out nothing is written for it any more |
| `SlotUse.CallbackFrees` | src/ws/CAsyncs.cpp:36-82 | a handle whose callback began and is over is free, unless its slot is filled anew |
| `SlotRings.RotateKeepsRing` | src/ws/CAsyncs.cpp:88-97 | turning the queue keeps it a rotation of 0..n-1 |
| `SlotRings.WindowIsContiguous` | src/ws/CAsyncs.cpp:155-201 | an accepted window is a run of consecutive ids that does not wrap |
| `SlotRings.SlotRing.constructor` | src/ws/CAsyncs.cpp:88-97 | the queue starts as 0..n-1 |
| `SlotRings.SlotRing.AcquireOne` | src/ws/CAsyncs.cpp:126-143 | succeeds exactly when the head is free, and then turns the queue by one |
| `SlotRings.SlotRing.HeadIsWindow` | src/ws/CAsyncs.cpp:170-177 | the inner loop accepts exactly the free, non-wrapping windows |
| `SlotRings.SlotRing.Take` | src/ws/CAsyncs.cpp:178-195 | the first k slots go to the back, in order |
| `SlotRings.SlotRing.Search` | src/ws/CAsyncs.cpp:164-186 | terminates at the first window, or after the last start that is tried |
| `SlotRings.SlotRing.AcquireMany` | src/ws/CAsyncs.cpp:155-201 | returns the first window of positions 0..n-1-k whose slots were free when looked at and whose ids never step back, fails exactly when there is none, and leaves a rotation either way; with slots that do not change meanwhile it succeeds exactly for the obtainable ones |
| `SlotRings.WindowIsRun` | src/ws/CAsyncs.cpp:170-177 | a window of the ring is a run of consecutive free slots that does not wrap |
| `SlotRings.ObtainableIff` | src/ws/CAsyncs.cpp:155-201 | in terms of the slots: the search finds k of n if and only if k consecutive slots are free and they neither straddle the head of the ring nor end right before it |
| `SlotRings.AllSlotsMissed` | src/ws/CAsyncs.cpp:164 | as many slots as there are cannot be obtained, even when all are free |
| `SplitSend.StageStep` | deps/libuv/src/unix/async.c:104-119 | each step of a sweep, and of senders meanwhile, keeps the calls and writes of a posted message contiguous and in order |
| `SplitSend.SplitMessageInOrder` | deps/libuv/src/unix/async.c:104-119 | parts posted when a sweep begins are called slot by slot with none in between; what is written is a prefix of them, and all of them if the peer stays registered |
| `Posting.PartStays` | src/ws/CAsyncs.cpp:211-238 | a part that was put into its slot and sent stays there with the flag set until the sweep, whoever else sends on the handle |
| `Posting.WindowIsPosted` | src/ws/CAsyncs.cpp:356-366 | posting the parts, or the first of them, to a window found free, in any run up to the next sweep, leaves them next to each other in the sweep's queue, in order, filled and pending |
| `Posting.SplitMessageArrives` | src/ws/CAsyncs.cpp:324-370 | from the window to the peer: the sweep calls the posted parts one after the other, and writes a prefix of the message; all of it if all parts were posted and the peer stays registered |
| `Posting.PostingCanHappen` | src/ws/CAsyncs.cpp:356-366 | whenever a window is found and a thread is there, it can post all parts before the next sweep |
| `SlotUse.WindowIsFreeAgain` | src/ws/CAsyncs.cpp:155-201 | a window that was posted and swept can be found again, wherever the same slots stand next to each other in the ring |
| `SplitSend.SplitsIff` | src/ws/common.cpp:222-245 | for every size above 0 and every count, all draws can be made if and only if there is one part or the average is at least 2 |
| `SplitSend.TwoInThreeParts` | src/ws/common.cpp:236-240 | two octets in three parts: the draw divides by zero |
| `SplitSend.ThreeInThreeParts` | src/ws/common.cpp:236-240 | three octets in three parts: whatever is drawn, it is drawn again |
| `SplitSend.SplitSize` | src/ws/common.cpp:222-245 | where all draws can be made, the parts are positive, as many as asked for within the limits, and add up to the size |
| `SplitSend.CutIsWhole` | src/ws/CAsyncs.cpp:356-366 | the parts' data joined is the message |
| `SplitSend.CutParts` | src/ws/CAsyncs.cpp:356-366 | each part has the length drawn for it, and goes to the same peer |
| `ThreadPool.InitInv` | deps/libuv/src/threadpool.c:129-186 | the pool as it starts satisfies the invariant, and nothing but its workers can go on by itself |
| `ThreadPool.StepKeepsInv` | deps/libuv/src/threadpool.c:52-247 | each atomic step of submit, worker, cancel and done keeps the invariant on queues, locks, items and wakeups |
| `ThreadPool.RunKeepsInv` | deps/libuv/src/threadpool.c:52-247 | and so does every interleaving |
| `ThreadPool.DecideTarget` | deps/libuv/src/threadpool.c:201-217 | where the test of uv__work_cancel holds, the item is still queued and has never run |
| `ThreadPool.ExactlyOnce` | deps/libuv/src/threadpool.c:52-247 | in every interleaving an item is in at most one queue, runs and is done at most once; status 0 only if it ran exactly once, cancelled only if it never ran |
| `ThreadPool.NoLostWakeup` | deps/libuv/src/threadpool.c:49-101 | while a worker sleeps, every queued entry has a worker that is signalled or looking |
| `ThreadPool.OrderlyExit` | deps/libuv/src/threadpool.c:52-126 | once a worker has left, everything posted before the exit message has been taken from the queue |
| `PoolRuns.NothingLeftBehind` | deps/libuv/src/threadpool.c:52-111 | the same in terms of what was posted, in whatever run |
| `ThreadPool.NoCyclicWait` | deps/libuv/src/threadpool.c:201-224 | no cyclic wait for locks is reachable: a chain of waiting threads has at most two links |
| `ThreadPool.Progress` | deps/libuv/src/threadpool.c:52-247 | no deadlock and no stuck worker: either a thread can step, or every item is done and all workers sleep or, after the exit message, have left |
| `ThreadPool.StepLowersCost` | deps/libuv/src/threadpool.c:52-247 | every step threads take on their own lowers a bound |
| `ThreadPool.RunLength` | deps/libuv/src/threadpool.c:52-247 | so between new submits, cancel calls, an exit message and spurious wakeups there are boundedly many steps |
| `ThreadPool.RestIsSettled` | deps/libuv/src/threadpool.c:52-247 | and once no step is left everything submitted is done, but for items behind an exit message |
| `PoolRuns.WorkIsFifo` | deps/libuv/src/threadpool.c:52-111 | workers begin items in the order in which they were posted, as long as none is cancelled |
| `PoolRuns.DoneIsFifo` | deps/libuv/src/threadpool.c:86-247 | done is called in the order in which items came to their loop, as long as none there is cancelled |
| `PoolRuns.SubmittedIsDone` | deps/libuv/src/threadpool.c:52-247 | a free client can submit; whatever happens then, if nobody cancels the item or asks for the exit, it has run once and is done with status 0 when no thread can go on |
| `PoolRuns.ExitReachesAll` | deps/libuv/src/threadpool.c:52-126 | told to exit, once, the pool has no worker left when no thread can go on |
| `Cancels.DecidesIff` | deps/libuv/src/threadpool.c:201-217 | the decision is to cancel if and only if the item is in the global queue, or already cancelled and waiting at its loop; otherwise a worker has it or has run it, and nothing changes |
| `Cancels.AcceptedIsNowhere` | deps/libuv/src/threadpool.c:207-209 | an accepted item leaves every queue, and all other entries keep their places |
| `Cancels.CancelSucceeds` | deps/libuv/src/threadpool.c:207-247 | it never runs, in any run from there, and when no thread can go on it is done once, with UV_ECANCELED |
| `Cancels.CancelCanHappen` | deps/libuv/src/threadpool.c:201-206 | the decision can be reached whenever both locks are free |
| `Heaps.Heap.constructor` | deps/libuv/src/heap-inl.h:62-65 | an empty heap |
| `Heaps.Heap.Exchange` | deps/libuv/src/heap-inl.h:78-91 | the fields of parent and child are exchanged, and the sibling re-parented |
| `Heaps.Heap.Reattach` | deps/libuv/src/heap-inl.h:93-103 | the children and the parent of the exchanged pair point back at them |
| `Heaps.Heap.NodeSwap` | deps/libuv/src/heap-inl.h:72-104 | parent and child change places in level order and every link of the tree is right again |
| `Heaps.Heap.SiftUp` | deps/libuv/src/heap-inl.h:143-147 | a heap that is ordered but for one node upwards becomes ordered, with the same nodes |
| `Heaps.Heap.Smallest` | deps/libuv/src/heap-inl.h:221-225 | the node or one of its children, neither child being less than it; the node itself and then the left child are preferred on ties |
| `Heaps.Heap.SiftDown` | deps/libuv/src/heap-inl.h:216-229 | a heap that is ordered but for one node ends ordered below it, with the same nodes |
| `Heaps.Heap.PathTo` | deps/libuv/src/heap-inl.h:122-124 | the reversed bits walked from the root lead exactly to level-order position n, without overflow of the word |
| `Heaps.PathStep` | deps/libuv/src/heap-inl.h:122-124 | each turn of the path loop keeps the position that the walk leads to |
| `Heaps.Heap.Descend` | deps/libuv/src/heap-inl.h:126-136 | the walk ends at the link that belongs to position n |
| `Heaps.Heap.Attach` | deps/libuv/src/heap-inl.h:115-141 | the new node becomes the last in level order |
| `Heaps.Heap.Insert` | deps/libuv/src/heap-inl.h:106-148 | the heap stays complete and ordered under any strict weak order, and gains exactly the new node |
| `Heaps.Heap.DetachLast` | deps/libuv/src/heap-inl.h:160-185 | exactly the last node in level order is unlinked |
| `Heaps.Heap.Replace` | deps/libuv/src/heap-inl.h:195-214 | the unlinked node takes the removed node's place with all links |
| `Heaps.Heap.Remove` | deps/libuv/src/heap-inl.h:150-237 | for any node of the heap: it stays complete and ordered, and loses exactly that node; an empty heap is left alone |
| `Heaps.Heap.RemoveAt` | deps/libuv/src/heap-inl.h:195-236 | the same from where the last node has been unlinked |
| `Heaps.Heap.Dequeue` | deps/libuv/src/heap-inl.h:239-241 | exactly the minimum leaves the heap |
| `Heaps.UpStep` | deps/libuv/src/heap-inl.h:143-147 | a swap upwards keeps all comparisons but the one above |
| `Heaps.DownStep` | deps/libuv/src/heap-inl.h:216-229 | a swap downwards with the smaller child keeps all comparisons but those below |
| `Heaps.MinIsLeast` | deps/libuv/src/heap-inl.h:33-39 | the root is not greater than any node |
| `RbLinks.RotateAll` | deps/libuv/include/tree.h:342-380 | a rotation's writes give every node of the whole tree its fields in the rotated tree |
| `RbLinks.SpliceAll` | deps/libuv/include/tree.h:579-590 | unlinking a node with one child gives every node its fields in the tree without it |
| `RbLinks.ReplaceAll` | deps/libuv/include/tree.h:559-570 | a successor copied into a node's place gives every node its fields in the new tree |
| `RbLinks.AttachAll` | deps/libuv/include/tree.h:613-622 | a new node below a leaf link gives every node its fields in the larger tree |
| `RbBalance.PlugOrder` | deps/libuv/include/tree.h:53-62 | the order of a tree is what is left of the focus, the focus, and what is right of it |
| `RbBalance.PlugColours` | deps/libuv/include/tree.h:53-62 | balance and colours of a tree in terms of the focus and what is around it |
| `RbBalance.RotateOrder` | deps/libuv/include/tree.h:342-380 | a rotation does not change the order |
| `RbBalance.Grandparent` | deps/libuv/include/tree.h:410-413 | in the insert fixup a red parent has a black parent of its own |
| `RbBalance.UncleRed` | deps/libuv/include/tree.h:416-421 | recolouring below a red uncle keeps the fixup's invariant two levels up |
| `RbBalance.TurnInner` | deps/libuv/include/tree.h:422-427 | turning an inner grandchild outwards keeps the invariant |
| `RbBalance.TurnOuter` | deps/libuv/include/tree.h:428-429 | turning the parent above the grandparent ends the violation |
| `RbBalance.InsertEnds` | deps/libuv/include/tree.h:448 | with the root painted black the tree is red-black again |
| `RbBalance.SiblingExists` | deps/libuv/include/tree.h:451-528 | the remove fixup never meets a null sibling, nor null nephews under a red one |
| `RbBalance.RedSibling` | deps/libuv/include/tree.h:460-464 | lowering a red sibling keeps the invariant |
| `RbBalance.BlackNephews` | deps/libuv/include/tree.h:465-471 | painting the sibling red moves the missing black node one level up |
| `RbBalance.NearRed` | deps/libuv/include/tree.h:473-482 | raising a red near nephew keeps the invariant and makes the far one red |
| `RbBalance.FarRed` | deps/libuv/include/tree.h:483-489 | raising the sibling restores the whole tree |
| `RbBalance.RemoveStarts` | deps/libuv/include/tree.h:530-594 | unlinking a red node leaves a red-black tree, unlinking a black one the fixup's invariant |
| `RbBalance.RemoveEnds` | deps/libuv/include/tree.h:525-527 | painting the last focus black restores the whole tree |
| `RbBalance.SuccessorMoves` | deps/libuv/include/tree.h:540-573 | taking out the successor and putting it in place drops exactly the removed node from the order, with the colours the fixup needs |
| `RbBalance.HeightBound` | deps/libuv/include/tree.h:53-62 | a red-black tree of n nodes is at most 2 log2(n + 1) high |
| `RbBalance.FirstIsNext` | deps/libuv/include/tree.h:668-687 | the first node behind the focus has the next larger key |
| `RbTrees.Head.constructor` | deps/libuv/include/tree.h:300-308 | an empty tree |
| `RbTrees.Head.RotateLinks` | deps/libuv/include/tree.h:342-380 | the effect of a rotation on every node's fields |
| `RbTrees.Head.Rotate` | deps/libuv/include/tree.h:342-380 | the heap holds the rotated tree, wherever in the whole tree it happens |
| `RbTrees.Head.InsertStep` | deps/libuv/include/tree.h:410-447 | one iteration of the insert fixup keeps its invariant and the order and moves up |
| `RbTrees.Head.InsertColor` | deps/libuv/include/tree.h:407-449 | the insert fixup terminates in a red-black tree with the same order |
| `RbTrees.Head.BelowBlackSibling` | deps/libuv/include/tree.h:465-489 | the cases of the remove fixup below a black sibling |
| `RbTrees.Head.RemoveStep` | deps/libuv/include/tree.h:455-523 | one iteration of the remove fixup keeps its invariant and the order, and moves up or ends |
| `RbTrees.Head.RemoveColor` | deps/libuv/include/tree.h:451-528 | the remove fixup terminates in a red-black tree with the same order |
| `RbTrees.Head.Splice` | deps/libuv/include/tree.h:581-590 | the heap holds the tree without a node that had at most one child |
| `RbTrees.Head.Replace` | deps/libuv/include/tree.h:559-570 | the heap holds the tree with the successor in the removed node's place |
| `RbTrees.Head.Successor` | deps/libuv/include/tree.h:540-542 | the loop ends at the first node in order of the right subtree, which has no left child |
| `RbTrees.Head.TakeSuccessor` | deps/libuv/include/tree.h:540-558 | the leftmost node below the right child is unlinked, and parent, child and colour are those the fixup needs |
| `RbTrees.Head.RemoveInner` | deps/libuv/include/tree.h:538-573 | a node with two children leaves the order |
| `RbTrees.Head.Unlink` | deps/libuv/include/tree.h:530-590 | exactly the removed node leaves the order; parent, child and colour describe where a black node is missing |
| `RbTrees.Head.Descend` | deps/libuv/include/tree.h:603-612 | under any total preorder, the search ends at a node that compares equal, or at the leaf link where the key belongs |
| `RbTrees.Head.Attach` | deps/libuv/include/tree.h:613-622 | the heap holds the tree with the new red node at the end of the search |
| `RbTrees.Head.Insert` | deps/libuv/include/tree.h:597-626 | under any total preorder of the keys, search order, parent links, equal black heights and no red-red edge are kept; the node set grows by exactly the new node, or the node that compares equal is returned and nothing changes |
| `RbTrees.Head.Remove` | deps/libuv/include/tree.h:530-595 | all of these are kept, and the node set loses exactly the given node |
| `RbTrees.Head.Find` | deps/libuv/include/tree.h:628-644 | the node that compares equal, null exactly when there is none |
| `RbTrees.Head.NFind` | deps/libuv/include/tree.h:646-665 | the node with the least key that is not below the given one, null exactly when there is none |
| `RbTrees.Head.Next` | deps/libuv/include/tree.h:668-687 | the node with the next larger key, null exactly for the last |
| `RbTrees.FirstAbove` | deps/libuv/include/tree.h:646-665 | the last node at which a search went left is the least above the key |
| `Queues.Link.constructor` | deps/libuv/src/queue.h:45-50 | a member on its own |
| `Queues.Init` | deps/libuv/src/queue.h:45-50 | the empty list |
| `Queues.EmptyRing` | deps/libuv/src/queue.h:39-43 | QUEUE_EMPTY tells whether the sequence is empty, QUEUE_HEAD is its first member |
| `Queues.InsertHead` | deps/libuv/src/queue.h:83-90 | the member is put before the sequence |
| `Queues.InsertTail` | deps/libuv/src/queue.h:92-99 | the member is put behind the sequence |
| `Queues.Remove` | deps/libuv/src/queue.h:101-106 | the member is taken out of the sequence wherever it is |
| `Queues.Split` | deps/libuv/src/queue.h:61-70 | the sequence is cut in two at the given member |
| `Queues.Move` | deps/libuv/src/queue.h:72-81 | the whole sequence changes its head |
| `Queues.Add` | deps/libuv/src/queue.h:52-59 | the second sequence goes behind the first |
| `LoopWatchers.Handles.constructor` | deps/libuv/src/unix/loop-watcher.c:26-30 | no handle is active |
| `LoopWatchers.Handles.StartHandle` | deps/libuv/src/unix/loop-watcher.c:32-39 | an inactive handle goes to the front of the loop's list; return codes included |
| `LoopWatchers.Handles.StopHandle` | deps/libuv/src/unix/loop-watcher.c:41-46 | the handle leaves whichever list it is in, also that of the running sweep |
| `LoopWatchers.Handles.Take` | deps/libuv/src/unix/loop-watcher.c:54-57 | the first waiting handle goes to the end of the loop's list |
| `LoopWatchers.Handles.Perform` | deps/libuv/src/unix/loop-watcher.c:58 | a callback starts and stops arbitrary handles |
| `LoopWatchers.Handles.Run` | deps/libuv/src/unix/loop-watcher.c:48-60 | the sweep terminates, calls exactly the handles of the specification, and leaves the lists it says |
| `LoopWatchers.DoneTidy` | deps/libuv/src/unix/loop-watcher.c:32-46 | whatever callbacks do, each handle is in at most one list and the sweep gets no longer |
| `LoopWatchers.SweepCalls` | deps/libuv/src/unix/loop-watcher.c:48-60 | who is called depends only on which handles earlier callbacks stopped, not on what they start |
| `LoopWatchers.CallsInOrder` | deps/libuv/src/unix/loop-watcher.c:48-60 | handles are called in list order |
| `LoopWatchers.CallsOnce` | deps/libuv/src/unix/loop-watcher.c:48-60 | each at most once, and only if active when the sweep began |
| `LoopWatchers.CalledIff` | deps/libuv/src/unix/loop-watcher.c:48-60 | a handle is called if and only if no callback before its turn stops it |
| `LoopWatchers.NextSweep` | deps/libuv/src/unix/loop-watcher.c:48-60 | after the sweep every active handle is on the loop's list |
| `Inet4.Ntop4` | deps/libuv/src/inet.c:53-65 | dotted decimal text, or ENOSPC exactly when it does not fit; 16 characters always suffice |
| `Inet4.Pton4` | deps/libuv/src/inet.c:186-222 | the loop over a four-octet buffer computes the scanner's verdict |
| `Inet4.ReadsBack4` | deps/libuv/src/inet.c:186-222 | what inet_ntop4 prints is read back |
| `Inet4.AcceptedText` | deps/libuv/src/inet.c:186-222 | whatever is accepted is the text of the address it yields: no leading zeros, four octets, no stray dots |
| `Inet4.Inverse4` | deps/libuv/src/inet.c:186-222 | inet_pton4 accepts exactly the image of inet_ntop4, and the two are inverse to each other |
| `Inet4.FindStands` | deps/libuv/src/inet.c:246-247 | the search finds exactly the digits of the base in either case, with their values |
| `Inet4.ShortestIsNumeral` | deps/libuv/src/inet.c:53-65 | what is printed for a number is its one numeral in lower case without leading zeros |
| `Inet4.Accepts4` | deps/libuv/src/inet.c:186-222 | exactly four decimal numerals without leading zeros, with dots between them, are accepted and read as their values |
| `Inet6.BestRun` | deps/libuv/src/inet.c:89-112 | the first longest run of at least two zero words, or none exactly when there is none (section 4.2 of RFC 5952) |
| `Inet6.Format` | deps/libuv/src/inet.c:119-139 | what one turn of the formatting loop prints, with room for an embedded IPv4 address |
| `Inet6.FormatAll` | deps/libuv/src/inet.c:117-144 | the loop and its epilogue print the text of the words |
| `Inet6.Text6Fits` | deps/libuv/src/inet.c:76-144 | the temporary buffer of 46 characters never overflows |
| `Inet6.Ntop6` | deps/libuv/src/inet.c:68-154 | the text compresses the best run; ENOSPC exactly when it does not fit |
| `Inet6.OpenGap` | deps/libuv/src/inet.c:289-304 | the octets behind :: move to the end of the buffer in place, whether or not the regions overlap |
| `Inet6.Scan` | deps/libuv/src/inet.c:240-282 | the loop over a sixteen-octet buffer computes the scanner's verdict, and never writes past it |
| `Inet6.Pton6` | deps/libuv/src/inet.c:225-309 | the whole parser computes the verdict |
| `Inet6.UvPton6` | deps/libuv/src/inet.c:157-184 | a zone index is cut off, and too long a prefix refused |
| `Inet6Text.AcceptsIff` | deps/libuv/src/inet.c:225-309 | exactly the texts of section 2.2 of RFC 4291 are accepted, and each is read as the address it stands for: groups of one to four hexadecimal digits in either case, at most one ::, an IPv4 address for the last two groups |
| `Inet6Text.TextIsWritten` | deps/libuv/src/inet.c:68-154 | what is printed is the spelling with :: for the run and dotted decimals for the last two words exactly where the source says |
| `Inet6Text.PrintedMeans` | deps/libuv/src/inet.c:68-154 | which is such a text, with the address printed |
| `Inet6Text.PrintedSound` | deps/libuv/src/inet.c:68-154 | its groups are the shortest numerals in lower case (sections 4.1 and 4.3 of RFC 5952) |
| `Inet6Text.ReadsBack` | deps/libuv/src/inet.c:225-309 | whichever run of at least two zeros :: stands for, and with or without embedded IPv4, the words are read back |
| `Inet6Text.RoundTrip6` | deps/libuv/src/inet.c:225-309 | inet_pton6 reads back what inet_ntop6 prints, for every address |
| `Sha1.CodeIsF` | src/ws/sha1.cpp:32-35 | the source's F1 to F4 are Ch, Parity and Maj of section 4.1.1 of FIPS 180-4 |
| `Sha1.M` | src/ws/sha1.cpp:38-40 | the circular array of sixteen words yields word t of the message schedule (section 6.1.2) |
| `Sha1.R` | src/ws/sha1.cpp:43-48 | one macro with its registers rotated is one round of the standard |
| `Sha1.FiveRounds` | src/ws/sha1.cpp:93-172 | five macro lines are five rounds, and the registers are back in place |
| `Sha1.BitCount` | src/ws/sha1.cpp:228-240 | the 64-bit length from two 32-bit halves is exact for every 32-bit block count |
| `Sha1.LengthHalves` | src/ws/sha1.cpp:254-262 | the eight stores are the big-endian octets of that length |
| `Sha1.LengthExact` | src/ws/sha1.cpp:228-240 | the length field is the standard's if and only if the message has fewer than 2^38 octets, 2^32 - 1 whole blocks and a part |
| `Sha1.Context.constructor` | src/ws/sha1.cpp:51-62 | the initial hash value of section 5.3.1, nothing written |
| `Sha1.Context.Reset` | src/ws/sha1.cpp:51-62 | back to the initial hash value, nothing written |
| `Sha1.Context.Transform` | src/ws/sha1.cpp:67-181 | the eighty unrolled lines and the additions are the compression of one block |
| `Sha1.Context.Flush` | src/ws/sha1.cpp:188-196 | a full buffer is hashed and emptied, a finished context starts anew |
| `Sha1.Context.Store` | src/ws/sha1.cpp:197-213 | octets fill up the buffer |
| `Sha1.Context.Whole` | src/ws/sha1.cpp:205-211 | whole blocks are hashed where they lie |
| `Sha1.Context.Write` | src/ws/sha1.cpp:185-214 | the octets are appended to the message, wherever block boundaries fall |
| `Sha1.Context.Final` | src/ws/sha1.cpp:221-280 | padding in one block or two, and the digest of the whole message |
| `Sha1.Context.Get` | src/ws/sha1.cpp:283-288 | the SHA-1 digest of everything written since the last reset, for fewer than 2^38 octets; for more, that with the length taken modulo 2^38 |
| `Sha1.HashChunks` | src/ws/sha1.cpp:185-288 | however a message is cut into writes, the digest is that of the whole |
| `Sha1.OneMoreBlock` | src/ws/sha1.cpp:242-246 | the padding that fits (section 5.1.1) |
| `Sha1.TwoMoreBlocks` | src/ws/sha1.cpp:247-253 | the padding that needs a block more |
| `Sha1.RotationsAreNumbers` | src/ws/sha1.cpp:25 | each rotation by n is x * 2^n modulo 2^32 plus x / 2^(32 - n) |
| `Sha1.ConstantsAreRoots` | src/ws/sha1.cpp:28-31 | the constants are the integer parts of 2^30 times the square roots of 2, 3, 5 and 10 |
| `Sha1.ScheduleBits` | src/ws/sha1.cpp:38-40 | a bit of a later schedule word is the parity of the bit one lower of four earlier words |
| `Sha1.WordIsOctets` | src/ws/sha1.cpp:67-92 | a word of a block is its four octets, most significant first |
| `Sha1Example.AbcDigest` | src/ws/sha1.cpp:51-288 | the digest of "abc" is a9993e36 4706816a ba3e2571 7850c26c 9cd0d89d |
| `PowerOfTwo.SmearStep` | deps/libuv/src/unix/core.c:765-774 | or-ing with a shift doubles the number of leading ones |
| `PowerOfTwo.AllOnes` | deps/libuv/src/unix/core.c:765-774 | all bits up to the top one set is one below a power of two |
| `PowerOfTwo.NextPowerOfTwo` | deps/libuv/src/unix/core.c:765-774 | the least power of two that is not below the argument, if and only if that is at most 2^31; above, the 32-bit sum wraps around to 0 |
| `Watchers.Loop.constructor` | deps/libuv/src/unix/core.c:811-825 | nothing registered, nothing queued |
| `Watchers.Loop.MaybeResize` | deps/libuv/src/unix/core.c:776-808 | entries and the two slots behind them survive; the new size is two below a power of two |
| `Watchers.GrowthFitsIff` | deps/libuv/src/unix/core.c:776-808 | of the lengths that the assert on the descriptor lets pass, the new table has room if and only if the length is at most 2^31 - 2; for 2^31 - 1 nothing is allocated |
| `Watchers.Loop.Start` | deps/libuv/src/unix/core.c:828-853 | keeps: nfds counts the entries, a watcher is registered if and only if its pevents is not empty, and a mask not yet armed is queued |
| `Watchers.Loop.Stop` | deps/libuv/src/unix/core.c:856-885 | the same, for a watcher in or out of the range of the table |
| `Watchers.Loop.Drain` | deps/libuv/src/unix/linux-core.c:222-255 | hands over the queue as specified, an addition that finds its descriptor there already once more as a modification, and keeps the same; no call fails otherwise as long as the kernel knows the armed watchers |
| `Watchers.StartedGood` | deps/libuv/src/unix/core.c:828-853 | the invariant over start, for all watchers at once |
| `Watchers.StoppedGood` | deps/libuv/src/unix/core.c:856-885 | the invariant over stop; the asserts on the entry and the counter hold |
| `Watchers.ArmedGood` | deps/libuv/src/unix/linux-core.c:227-255 | the asserts on a queued watcher hold, and arming it keeps the invariant |
| `Watchers.NothingQueued` | deps/libuv/src/unix/linux-core.c:222-225 | with no registered watcher the queue is empty, as the source asserts |
| `Watchers.DrainArms` | deps/libuv/src/unix/linux-core.c:227-255 | after a drain every watcher is armed with its pevents and the kernel polls for exactly these; each queued one was handed over, as an addition exactly when it was not armed, and again as a modification exactly when the kernel had it already |

## Left out

- Sockets, files, timers, logging, system calls and real threads: only the atomic steps named above are modelled, and
  memory is sequentially consistent. The descriptor of the async wakeups is one flag, read and cleared in one step.
- Built-in ping, pong and close frames: the source announces a two-octet payload that it does not send.
- The `flag` octet that `onData` is given, and `dfExt`: flags are OR-ed together and never cleared.
- Role rules of RFC 6455 such as mandatory client masking, UTF-8 validity, and limits on control frames.
- `ReadLoops.Connection.OnReadServer`: reads in which the loop ends, since a loop without end has no final state to speak
  of; `ReadTurns.LoopEndsIff` says which they are. The same holds for `OnReadClient` and `Receive`.
- `Reassembly.EndToEnd`: text and binary messages of at least one octet; an empty message is not sent at all.
- Order between different messages: sends that race a running sweep, or a window that wraps around the ring, may be
  reordered by the source; only the parts of one message posted between sweeps are proved to stay together.
- A slot filled by two senders at once: filling is modelled as one step that finds the slot free.
- `SplitSend.SplitSize`: sizes and counts for which it comes to an end, as `SplitSend.SplitsIff` says; the random number
  is any that ends the draw, without the upper bound of `rand`.
- `Posting.SplitMessageArrives`: the parts are posted between two sweeps; parts posted while a sweep runs may be
  separated by it.
- `uv__async_close`, and handles initialised while a sweep runs.
- `uv_queue_work`, `uv_cancel` on other request types, the number of threads, and forking.
- Allocation failure everywhere.
- `ThreadPool.Progress`: a pool with at least one worker.
- `RbTrees.Head.Insert`: the comparison function is a total preorder of the keys, as a search tree needs; what other
  functions lead to is not modelled.
- `MembufModule.Membuf.Reserve`: a capacity that is neither zero nor a power of two, where a value that wrapped around
  may happen to suffice, is modelled up to 2^31 octets only.
- RB_PREV and RB_MINMAX, which mirror what is proved of RB_NEXT and the searches, and RB_AUGMENT, which is empty.
- `Watchers.Loop.Start`: descriptor 2^31 - 2, for which a table without slots is allocated: what the allocator returns for
  a size of zero, and what the stores behind it hit, is not for the source to say. `MaybeResize` likewise.
- `Watchers.Loop.MaybeResize`: the table is a sequence that is replaced, so reallocation in place and stale pointers to
  the old table are not captured; there is one watcher per descriptor, as the source asserts.
- `Watchers.Loop.Drain`: answers of epoll_ctl other than success, EEXIST and ENOENT; the source aborts.
- `LoopWatchers.Handles.Run`: callbacks start and stop handles; they do not close or initialise them or run the loop
  themselves. A handle and the list member embedded in it are one object.
- `Inet4.Pton4`: strings are the characters before the NUL; the destination is returned instead of written.
- `Sha1.Context.Write`: input is a value, so that overlap of input and context is not captured; a null input is
  `Sha1.Context.Flush`.
- The handshake, `base64` and URL codecs, splay trees, the other platforms' back ends, and the thin wrappers around
  loops, threads and tasks.
- Randomness, and the probability with which a loop that depends on it ends.
