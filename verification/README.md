# A verified model of the RTMP engine and of two IA2 runtime algorithms

IA2 splits programs into compartments; the program it splits here is the nginx RTMP module. This project models the
parts of both whose correctness is not obvious from reading one function, in Dafny, and proves what they are for.

`dafny verify dfyconfig.toml` checks everything.

| files | subject |
|---|---|
| `Bytes` | bytes, 32-bit arithmetic, big-endian numbers |
| `ChunkFormat`, `ChunkBuffers`, `ChunkReceiver` | the resumable chunk receiver: a parser on values, and the loop over recycled buffers that refines it (sections 5.3.1.1 to 5.3.1.3 of the RTMP Specification 1.0) |
| `ChunkSender`, `ChunkRoundTrip` | preparing messages for the wire, and what the receiver makes of them |
| `SharedLayout`, `SharedPool`, `SharedWire`, `SharedRun` | reference-counted output buffers: lists, pointers, and whole runs |
| `OutQueue`, `OutQueueRun` | the circular output queue and partial sends, and runs in which it fills up |
| `EndToEnd` | a whole connection: payloads, shared buffers, queue, network, receiver |
| `LiveClock`, `LiveRegistry`, `Live` | live streams: names, members, publishers, and subscriber clocks |
| `Mp4Table`, `Mp4Cursor`, `Mp4Seek`, `Mp4Track` | the MP4 sample tables (sections 8.6.1.2 to 8.7.5 of ISO/IEC 14496-12), the cursor over them, and seeking |
| `Amf`, `AmfSchema`, `AmfRoundTrip`, `AmfChain` | the AMF0 reader and writer (section 2 of the AMF 0 Specification) |
| `Aggregate` | splitting aggregate messages in place (section 7.1.6 of the RTMP Specification 1.0) |
| `Flv`, `FlvClock` | recording, appending and playing FLV files (section E.4.1 of the FLV Specification 10.1), and the clock of who watches |
| `Handshake`, `HandshakeReply`, `HandshakePeer` | the handshake of two endpoints (section 5.2 of the RTMP Specification 1.0), what the responses contain, and either side against any peer |
| `BitReader` | bit fields and Exp-Golomb codes (section 9.1 of ITU-T H.264) |
| `PageProtect` | protecting writable segments except for shared ranges |
| `Allowlist` | allowing a file tree except for forbidden paths |

Objects that the source updates in place are classes; what their methods do is stated through functions on values,
and the properties are lemmas about those functions. Memory that the source reaches through pointers is a sequence
indexed by names, so that links, sharing and in-place updates stay visible. What the network, the file system, a
message handler or an output queue answers is a parameter of the operation.

A few marks steer the proofs and say nothing: they are always true. Invariants quantify over indices marked by
`Known(k)`, and are used for the indices a proof names. Predicates whose body stands under `Unfold(k)` are used by
their name only, until a proof says `assert Unfold(0)`: the quantified variable has no other meaning there. `Open(k)`
does the same for what is said of a whole connection.

## What turned out to hold only under a condition

- A message whose first chunk has format 3 repeats the time difference of the message before it, and is read with an
  extended timestamp if that one had one. It is delivered as it was sent exactly when there was neither
  (`DeliveredExactly`). `StaleDifference` and `ExtendedIsLost` show both failures from a new connection. The callers
  in this source leave `mlen` of the previous header at zero, so they never produce such a chunk.
- The occupancy formula of the output queue subtracts unsigned positions. It is right in every state exactly when the
  queue size divides 2^64 (`OccupancyExact`), as the default of 256 does, and for other sizes as long as the ring has
  not wrapped (`OccupancyRight`). A slot stays free in every run exactly for the same sizes (`SizeRule`). For every
  other size, `Fill` is a run of the queue in which one message is sent, the socket then takes nothing, and as many
  messages are accepted as there are slots: the positions are those of an empty queue. If nothing more comes, all of
  them are sent when the socket takes them (`FullIsSent`). If one more comes, it takes the slot of the message being
  sent, is released in its place without being sent, and the others are neither sent nor released (`OneTooMany`).
- As long as no message is corked and the session is not finalized, something queued means that the write event is
  active, so a full queue is never idle (`Flowing`, in `SendMessage` and `Send`). Corked messages can fill it while it
  is idle. Then none of them is sent, whatever the socket would take; `CorkedGetStuck` shows this with three slots.
- An MP4 seek whose target is the very time at which a time run ends shows the sample there, but leaves the cursor in
  the run that has ended. From then on each step uses the time difference of one sample before, so that sample k is
  shown at the right time exactly when the difference before it is that of the run that had ended (`ShownIsRight`).
  Everything shown after the seek is right exactly when the target is not the end of a run or all later differences
  are the same (`Play`, `AllRight`). `RunEndGoesWrong` shows a track where they are not.
- The FLV player sends every frame relative to the last one it has read of that kind, also when the queue has refused
  that one or it was too big to be offered. Once a frame has been taken, the receiver's clock and the time that passed in
  the lost frames add up to the time of the last frame read, so that the clock is right exactly when no time was lost
  (`ClockLaw`). All frames of a run are heard at their own times exactly when no time passes in the frames lost between
  two that are taken (`AlwaysRight`). `LostFrameDelays` records three frames at 0, 10 and 20 and plays them without the
  second one: the third is heard at 10.
- Times in an appended FLV recording go on from the last one up to 2^31; beyond it, and for frames that come before the
  first appended one by more than the last time, they are cut to 0 (`AppendTimeIs`).
- An AMF descriptor list consumes the same bytes as skipping does, on all inputs, exactly when a VARIANT is only its
  last element: an end marker that a VARIANT reads does not end the call (`ConsumptionIsSchemaIndependent`). A single
  element, and everything nested, is always independent of its descriptor.

Where the code and its comments differ, the model follows the code: repeated extended timestamps in format 3 headers
(`play_time_fix`), objects without an end marker, aggregate messages that must be followed by at least one more byte,
and an empty FLV recording that is started over when it is opened for appending.

## Model

| member | source | states |
|---|---|---|
| ChunkFormat.ParseBasicStable | external/nginx-rtmp-module/ngx_rtmp_handler.c:305-321 | a basic header that has been recognised is the same when more bytes follow |
| ChunkFormat.ParseHeaderStable | external/nginx-rtmp-module/ngx_rtmp_handler.c:355-422 | parsing a message header again after a short read gives the same header: re-parsing is idempotent |
| ChunkFormat.NextChunkStable | external/nginx-rtmp-module/ngx_rtmp_handler.c:301-445 | a chunk that is complete is the same chunk when more bytes have arrived |
| ChunkFormat.WaitIsShort | external/nginx-rtmp-module/ngx_rtmp_handler.c:441-445 | as long as the receiver waits, what it holds is shorter than one buffer (chunk size plus the largest header) |
| ChunkFormat.FeedCompose | external/nginx-rtmp-module/ngx_rtmp_handler.c:219-487 | feeding two pieces one after the other is feeding their concatenation |
| ChunkFormat.FragmentationIndependent | external/nginx-rtmp-module/ngx_rtmp_handler.c:219-487 | messages delivered, half-received messages and errors depend on the bytes only, not on how reads split them |
| ChunkFormat.FeedQuiet | external/nginx-rtmp-module/ngx_rtmp_handler.c:441-445 | after any input no complete chunk is left unprocessed |
| ChunkFormat.DrainGrows | external/nginx-rtmp-module/ngx_rtmp_handler.c:219-487 | receiving never takes a delivery back |
| ChunkFormat.BasicMeans | external/nginx-rtmp-module/ngx_rtmp_handler.c:305-321 | any basic header is read as what its bytes say: format in the top two bits, and the id in the rest, in one byte more, or in two with the lighter one first |
| ChunkFormat.HeaderMeans | external/nginx-rtmp-module/ngx_rtmp_handler.c:355-422 | any header is read as what its bytes say: in formats 0 to 2, 255, 255, 255 means that the time is in the four bytes behind the fields, and any other three bytes are the time; length and stream id by their positions |
| ChunkFormat.OnlyBounded | external/nginx-rtmp-module/ngx_rtmp_handler.c:300-488 | whatever bytes arrive, every message ever delivered is on a stream there is, within the size limit, and as long as its header says |
| ChunkBuffers.LinkKeepsOwned | external/nginx-rtmp-module/ngx_rtmp_handler.c:335-353 | moving the orphan buffer from list 0 to a chunk stream keeps every buffer in exactly one place of one list |
| ChunkBuffers.RecycleKeepsOwned | external/nginx-rtmp-module/ngx_rtmp_handler.c:477-483 | giving a delivered chain back to list 0 keeps every buffer in exactly one place |
| ChunkBuffers.OnePlace | external/nginx-rtmp-module/ngx_rtmp_handler.c:335-353 | two places that hold the same buffer are the same place: lists never share a buffer |
| ChunkReceiver.ReadFields | external/nginx-rtmp-module/ngx_rtmp_handler.c:355-422 | the field-by-field header read over the bytes at hand gives the header that ParseHeader defines, or asks for more |
| ChunkReceiver.ReadBasic | external/nginx-rtmp-module/ngx_rtmp_handler.c:305-321 | the three forms of the basic header, or more bytes needed |
| ChunkReceiver.Session.EnsureBuffer | external/nginx-rtmp-module/ngx_rtmp_handler.c:223-232 | a list without a buffer gets one: a recycled or a new one |
| ChunkReceiver.Session.ReadHeader | external/nginx-rtmp-module/ngx_rtmp_handler.c:301-353 | reads the basic header, refuses stream ids out of range, and links the orphan buffer to its stream |
| ChunkReceiver.Session.ReadRest | external/nginx-rtmp-module/ngx_rtmp_handler.c:355-439 | completes the header or waits; refuses messages over the limit |
| ChunkReceiver.Session.TakeBody | external/nginx-rtmp-module/ngx_rtmp_handler.c:441-483 | cuts the body of a complete chunk and keeps the rest of the buffer for the next one |
| ChunkReceiver.Session.Deliver | external/nginx-rtmp-module/ngx_rtmp_handler.c:456-483 | the buffers of the finished message, in order, hold exactly its payload; the handler sees it with its final timestamp |
| ChunkReceiver.Session.Recycle | external/nginx-rtmp-module/ngx_rtmp_handler.c:477-483 | the delivered buffers go to list 0 and to nowhere else |
| ChunkReceiver.Session.Assemble | external/nginx-rtmp-module/ngx_rtmp_handler.c:456-466 | the payload read off a buffer list is the concatenation of the live parts |
| ChunkReceiver.Session.SocketRead | external/nginx-rtmp-module/ngx_rtmp_handler.c:258 | the socket is only ever asked to read into a buffer with positive room (its precondition, proved at the call) |
| ChunkReceiver.Session.Load | external/nginx-rtmp-module/ngx_rtmp_handler.c:238-299 | the bytes left over from the last chunk are moved to the current buffer, or new ones are read; a close is noticed whether or not bytes are waiting |
| ChunkReceiver.Session.Recv | external/nginx-rtmp-module/ngx_rtmp_handler.c:193-487 | the whole in-place receive loop, over any sequence of read sizes, does what Feed does to the bytes it took; it stops only when the session is destroyed or the socket is exhausted |
| ChunkReceiver.Session.LinkOrphan | external/nginx-rtmp-module/ngx_rtmp_handler.c:335-353 | the buffer just read moves from list 0 to the end of its stream's list |
| ChunkReceiver.Session.SettleHeader | external/nginx-rtmp-module/ngx_rtmp_handler.c:355-422 | the stream's header and time difference after the header, or unchanged when bytes are missing |
| ChunkReceiver.Session.FinishChunk | external/nginx-rtmp-module/ngx_rtmp_handler.c:441-486 | a complete chunk is collected or delivered; an incomplete one waits |
| ChunkReceiver.Session.CutBody | external/nginx-rtmp-module/ngx_rtmp_handler.c:449-454 | the current buffer is limited to the chunk's body |
| ChunkReceiver.Session.Collect | external/nginx-rtmp-module/ngx_rtmp_handler.c:449-454 | a chunk that is not the last adds its body to the half-received message |
| ChunkReceiver.Session.Reuse | external/nginx-rtmp-module/ngx_rtmp_handler.c:238-246 | bytes behind the chunk are moved to the start of the next buffer |
| ChunkReceiver.Session.Consume | external/nginx-rtmp-module/ngx_rtmp_handler.c:446-483 | the body is cut off and the chunk acted on; the bytes behind it stay where they were |
| ChunkReceiver.Session.Settle | external/nginx-rtmp-module/ngx_rtmp_handler.c:450-483 | a chunk is collected, or completes its message and hands it over |
| ChunkReceiver.Session.Append | external/nginx-rtmp-module/ngx_rtmp_handler.c:258-275 | bytes read are added behind the live part |
| ChunkSender.BasicHeaderExact | external/nginx-rtmp-module/ngx_rtmp_handler.c:634-656 | the basic header is as long as its room for ids from 2 on and two bytes longer for 0 and 1; it parses back to the id if and only if the id is between 2 and 65599 |
| ChunkSender.HeaderFits | external/nginx-rtmp-module/ngx_rtmp_handler.c:619-642 | the first header is as long as its room for ids from 2 on, two bytes longer for 0 and 1, and the room always fits in front of the payload |
| ChunkSender.Prepend | external/nginx-rtmp-module/ngx_rtmp_handler.c:641-643 | moving the start back and writing the header there: a header longer than its room covers the first payload bytes, and nothing else changes |
| ChunkSender.MessageLength | external/nginx-rtmp-module/ngx_rtmp_handler.c:592-598 | the total of the live parts, added up in 32 bits |
| ChunkSender.BuildHeaders | external/nginx-rtmp-module/ngx_rtmp_handler.c:641-701 | the two headers written byte by byte are the ones the wire format defines, with the room the code sets aside; and by byte positions |
| ChunkSender.Plan | external/nginx-rtmp-module/ngx_rtmp_handler.c:600-639 | format, time difference and room, step by step |
| ChunkSender.WriteBasic | external/nginx-rtmp-module/ngx_rtmp_handler.c:644-661 | the basic header of the first chunk, and the format 3 one made from it |
| ChunkSender.WriteFields | external/nginx-rtmp-module/ngx_rtmp_handler.c:663-684 | the bytes written for time, length, type and stream id are their big- and little-endian encodings |
| ChunkSender.PrepareMessage | external/nginx-rtmp-module/ngx_rtmp_handler.c:568-708 | every buffer of the chain gets its header in front and nothing else changes; ids out of range are refused |
| ChunkSender.AddHeaders | external/nginx-rtmp-module/ngx_rtmp_handler.c:641-708 | the first header in front of the first buffer, the short one in front of each of the others |
| ChunkSender.FirstHeaderOnWire | external/nginx-rtmp-module/ngx_rtmp_handler.c:600-691 | every first header, by byte positions: 255, 255, 255 and the time in four bytes behind the fields if and only if it is at least 16777215, and otherwise the time in three bytes |
| ChunkSender.NextHeaderOnWire | external/nginx-rtmp-module/ngx_rtmp_handler.c:658-701 | the header of every further chunk, by byte positions |
| ChunkSender.LongestHeader | external/nginx-rtmp-module/ngx_rtmp.h:158-162 | the longest header takes all of the 18 bytes set aside |
| ChunkRoundTrip.PreparedIsWire | external/nginx-rtmp-module/ngx_rtmp_handler.c:568-708 | the bytes of a prepared chain are the wire image of the message |
| ChunkRoundTrip.FirstHeaderParses | external/nginx-rtmp-module/ngx_rtmp_handler.c:301-422 | the receiver reads the sender's first header as it was meant, for every format, if and only if it is not a format 3 one on a stream that expects an extended timestamp |
| ChunkRoundTrip.NextHeaderParses | external/nginx-rtmp-module/ngx_rtmp_handler.c:355-422 | the same for the headers of later chunks, when both sides agree on repeating extended timestamps |
| ChunkRoundTrip.PieceArrives | external/nginx-rtmp-module/ngx_rtmp_handler.c:441-486 | a chunk of a half-received message adds exactly its piece |
| ChunkRoundTrip.MessageArrives | external/nginx-rtmp-module/ngx_rtmp_handler.c:219-487 | a whole message arrives, unless its first chunk is a format 3 one on a stream that expects an extended timestamp: one delivery, and all other streams untouched |
| ChunkRoundTrip.DeliveredExactly | external/nginx-rtmp-module/ngx_rtmp_handler.c:409-422 | feeding the bytes of a message to a receiver that is ready for it delivers exactly that message, if and only if its first chunk is not a format 3 one on a stream whose last message left a time difference or an extended timestamp |
| ChunkRoundTrip.HeaderArrives | external/nginx-rtmp-module/ngx_rtmp_handler.c:600-612 | the header that arrives is the one sent if and only if it does not repeat a nonzero time difference |
| ChunkRoundTrip.StaleDifference | external/nginx-rtmp-module/ngx_rtmp_handler.c:409-422 | a run of the receiver that shows the first failing case: messages at 60, 100 and 100 are delivered with the times 60, 100 and 140 |
| ChunkRoundTrip.ExtendedIsLost | external/nginx-rtmp-module/ngx_rtmp_handler.c:391-422 | a run that shows the second failing case: of two messages at 0x1000000 only the first is delivered |
| ChunkRoundTrip.ExtendedStarves | external/nginx-rtmp-module/ngx_rtmp_handler.c:391-408 | a format 3 message on a stream that expects an extended timestamp is never delivered, whatever its payload; in one chunk, nothing is |
| ChunkRoundTrip.WireRoundTrip | external/nginx-rtmp-module/ngx_rtmp_handler.c:219-487 | any sequence of messages whose format 3 ones meet that condition is delivered as exactly the same sequence of ids, types, times and payloads |
| ChunkRoundTrip.FragmentedRoundTrip | external/nginx-rtmp-module/ngx_rtmp_handler.c:219-487 | the same however the network cuts the bytes up |
| ChunkRoundTrip.ChunkIsLocal | external/nginx-rtmp-module/ngx_rtmp_handler.c:219-487 | a chunk changes only its own chunk stream, and its effect there does not depend on the others |
| ChunkRoundTrip.InterleavingIndependent | external/nginx-rtmp-module/ngx_rtmp_handler.c:219-487 | what is delivered on a chunk stream is what its own chunks alone would deliver, however streams are interleaved |
| ChunkRoundTrip.TailArrives | external/nginx-rtmp-module/ngx_rtmp_handler.c:703-707 | the later chunks of a message complete it |
| SharedLayout.AllocKeeps | external/nginx-rtmp-module/ngx_rtmp_shared.c:20-53 | allocation keeps every buffer in exactly one place of the free list or of one chain, and counts positive |
| SharedLayout.AcquireKeeps | external/nginx-rtmp-module/ngx_rtmp.h:488-489 | an extra reference changes nothing but the count |
| SharedLayout.ReleaseKeeps | external/nginx-rtmp-module/ngx_rtmp_shared.c:64-74 | releasing keeps the partition; with the last reference the whole chain joins the free list |
| SharedLayout.JoinKeeps | external/nginx-rtmp-module/ngx_rtmp_shared.c:103-104 | hooking a buffer to a chain keeps the partition |
| SharedPool.Pool.constructor | external/nginx-rtmp-module/ngx_rtmp_shared.c:13-56 | an empty pool |
| SharedPool.Pool.AllocSharedBuf | external/nginx-rtmp-module/ngx_rtmp_shared.c:13-56 | the pointers after an allocation spell the lists of Allocated; the buffer is empty and has one reference |
| SharedPool.Pool.AcquireSharedChain | external/nginx-rtmp-module/ngx_rtmp.h:488-489 | the count in memory goes up by one and nothing else changes |
| SharedPool.Pool.FreeSharedChain | external/nginx-rtmp-module/ngx_rtmp_shared.c:60-75 | the pointers afterwards spell the lists of Released: chain on the free list exactly at count zero |
| SharedPool.Pool.GiveBack | external/nginx-rtmp-module/ngx_rtmp_shared.c:63-75 | the last holder gone, the whole chain goes in front of the free list |
| SharedPool.Pool.LastLink | external/nginx-rtmp-module/ngx_rtmp_shared.c:90-93 | following the links ends at the last buffer of the chain |
| SharedPool.Pool.WriteChain | external/nginx-rtmp-module/ngx_rtmp_handler.c:704-707 | writing to the buffers of one chain leaves every other chain as it was |
| SharedPool.Pool.ReadChain | external/nginx-rtmp-module/ngx_rtmp_handler.c:592-598 | following the links yields the buffers of the chain in order |
| SharedPool.Fill | external/nginx-rtmp-module/ngx_rtmp_shared.c:107-119 | copies as much of the input chain as fits, and says where the input goes on |
| SharedPool.Pool.AppendSharedBufs | external/nginx-rtmp-module/ngx_rtmp_shared.c:79-126 | the chain's payload grows by exactly the input, all buffers but the last are full, none behind the first is empty, and every other chain is untouched |
| SharedPool.Pool.AppendAll | external/nginx-rtmp-module/ngx_rtmp_shared.c:92-124 | the copying loop, whatever the sizes of the input buffers |
| SharedPool.FillWhole | external/nginx-rtmp-module/ngx_rtmp_shared.c:107-115 | whole input buffers are copied for as long as they fit |
| SharedPool.Pool.Extend | external/nginx-rtmp-module/ngx_rtmp_shared.c:97-105 | a new buffer is hooked to the end of the chain, in memory and in the layout that the runs speak of |
| SharedPool.Pool.MakeRoom | external/nginx-rtmp-module/ngx_rtmp_shared.c:97-105 | a full last buffer is followed by a new one, otherwise nothing changes |
| SharedPool.Pool.FillLast | external/nginx-rtmp-module/ngx_rtmp_shared.c:107-119 | the chain's payload grows by what was copied |
| SharedPool.Pool.StartChain | external/nginx-rtmp-module/ngx_rtmp_shared.c:97-105 | a chain of one empty buffer |
| SharedWire.PackedArePieces | external/nginx-rtmp-module/ngx_rtmp_shared.c:95-120 | the buffers of an appended chain are the chunk-sized pieces of its payload that the wire format prescribes |
| SharedRun.StepKeeps | external/nginx-rtmp-module/ngx_rtmp_shared.c:13-75 | each step of a run (allocate, extend, hold, enqueue, refuse, send, drop, close, open) keeps the partition and exact counts |
| SharedRun.CountsAreHolders | external/nginx-rtmp-module/ngx_rtmp_handler.c:732-735 | in every reachable state a chain is live if and only if something holds it, and its count is code holders plus queue slots |
| SharedRun.EveryBufferOnce | external/nginx-rtmp-module/ngx_rtmp_shared.c:13-75 | in every reachable state each buffer ever made lies in exactly one place |
| SharedRun.NothingLeaks | external/nginx-rtmp-module/ngx_rtmp_init.c:301-304 | when no code and no queue holds a chain, every buffer is on the free list |
| SharedRun.StepDoes | external/nginx-rtmp-module/ngx_rtmp_shared.c:13-75 | what each step does: who holds what afterwards, and of which buffers the chains consist |
| SharedRun.RunKeeps | external/nginx-rtmp-module/ngx_rtmp_shared.c:13-75 | every run keeps the partition and exact counts |
| EndToEnd.FlatIsWireAll | external/nginx-rtmp-module/ngx_rtmp_handler.c:492-564 | the bytes of the queued chains are the wire image of the messages they were prepared from |
| EndToEnd.AcceptedIsDelivered | external/nginx-rtmp-module/ngx_rtmp_handler.c:219-564 | a receiver that has got the first bytes of the accepted messages has delivered a prefix of them, and all of them once every byte has arrived |
| EndToEnd.PrepareShared | external/nginx-rtmp-module/ngx_rtmp_handler.c:568-708 | preparing a packed chain in the shared buffers puts the wire image of its payload there |
| EndToEnd.Link.Build | external/nginx-rtmp-module/ngx_rtmp_flv_module.c:507-510 | a payload in a new chain becomes the wire image of its message, in place, and leaves all queued messages alone |
| EndToEnd.Link.Enqueue | external/nginx-rtmp-module/ngx_rtmp_handler.c:712-751 | the queue takes its own reference, the module lets go of its one, and what is sent at once is freed |
| EndToEnd.Link.LetGo | external/nginx-rtmp-module/ngx_rtmp_handler.c:541-556 | the chains of finished messages are freed, those of queued ones are not |
| EndToEnd.Link.Submit | external/nginx-rtmp-module/ngx_rtmp_flv_module.c:507-512 | copying a payload into a new chain, adding headers, queueing and letting go: the message is accepted exactly by stream id, occupancy and priority, and the connection stays in order |
| EndToEnd.Link.Flush | external/nginx-rtmp-module/ngx_rtmp_handler.c:492-564 | a writable or timed-out socket, with any answers, keeps the connection in order |
| EndToEnd.Link.Receive | external/nginx-rtmp-module/ngx_rtmp_handler.c:193-487 | the receive loop, over any read sizes, keeps the connection in order |
| EndToEnd.DeliveredInOrder | external/nginx-rtmp-module/ngx_rtmp_handler.c:193-751 | in every state of a connection, from payloads to handlers, what has been delivered is a prefix of the messages accepted, unchanged, and all of them once every byte has arrived |
| EndToEnd.QueuedStaysInMemory | external/nginx-rtmp-module/ngx_rtmp_handler.c:541-556 | as long as a message is queued, its shared buffers hold its bytes and none of them is free |
| EndToEnd.AlwaysRoom | external/nginx-rtmp-module/ngx_rtmp_handler.c:717-730 | if the queue size divides 2^64, a message can be submitted in every state of the connection |
| OutQueue.OccupancyExact | external/nginx-rtmp-module/ngx_rtmp_handler.c:717 | the unsigned occupancy formula counts the slots in use in every state if and only if the queue size divides 2^64 |
| OutQueue.SizeRule | external/nginx-rtmp-module/ngx_rtmp_handler.c:717-733 | in every run of messages that come and go there are fewer of them than slots, if and only if the queue size divides 2^64 |
| OutQueue.PositionRule | external/nginx-rtmp-module/ngx_rtmp_handler.c:717-730 | no positions of the queue accept a message into a full ring if and only if the queue size divides 2^64 |
| OutQueue.FullLooksFree | external/nginx-rtmp-module/ngx_rtmp_handler.c:717-730 | for every other size, the formula takes a full ring for one that has room |
| OutQueue.OverrunAccepted | external/nginx-rtmp-module/ngx_rtmp_handler.c:717-733 | for every other size, one message comes and goes and then as many are accepted as there are slots |
| OutQueue.BooksCross | external/nginx-rtmp-module/ngx_rtmp_handler.c:732-733 | a message stored into the slot of the one being sent: that one is still sent, under the new name, and the others are forgotten |
| OutQueue.Output.Overwrite | external/nginx-rtmp-module/ngx_rtmp_handler.c:732-733 | what is left of a full queue when its first slot is overwritten, idle or sending |
| OutQueue.Output.Admit | external/nginx-rtmp-module/ngx_rtmp_handler.c:717-733 | accepted and stored, or refused, exactly by the formula and priority; a full queue is overwritten |
| OutQueue.Output.Resume | external/nginx-rtmp-module/ngx_rtmp_handler.c:519-561 | the message being sent goes on or the next one starts; the write event is active afterwards exactly while something is left to send, unless the session is finalized or the queue only looks empty |
| OutQueue.Output.Count | external/nginx-rtmp-module/ngx_rtmp_handler.c:717 | what the formula counts; the messages queued, where it counts right |
| OutQueue.Output.TakesRightly | external/nginx-rtmp-module/ngx_rtmp_handler.c:717-725 | where the formula counts right, acceptance goes by the number of messages queued |
| OutQueue.Output.NeverFull | external/nginx-rtmp-module/ngx_rtmp_handler.c:717-730 | a queue whose size divides 2^64 always has a free slot |
| OutQueue.Output.WriteOut | external/nginx-rtmp-module/ngx_rtmp_handler.c:524-558 | the sending loop, for any partial writes |
| OutQueue.BooksForget | external/nginx-rtmp-module/ngx_rtmp_handler.c:732-733 | a message stored into a queue that looks empty and is not: the others are forgotten, and the books go on without them |
| OutQueue.UrgentFirst | external/nginx-rtmp-module/ngx_rtmp_handler.c:719-725 | acceptance at one priority implies acceptance at every more urgent one, and leaves a slot free |
| OutQueue.RingPush | external/nginx-rtmp-module/ngx_rtmp_handler.c:732-733 | storing at the end of the ring overwrites no queued message |
| OutQueue.RingPop | external/nginx-rtmp-module/ngx_rtmp_handler.c:547-553 | taking the first message keeps the order of the others |
| OutQueue.Output.SendMessage | external/nginx-rtmp-module/ngx_rtmp_handler.c:712-751 | acceptance exactly by the formula and priority, which is by the messages queued where the formula counts right; accepted messages in order; a refused one changes nothing; in a full queue, the first slot is overwritten and the messages queued are forgotten, except for the rest of the one being sent; the socket is not tried while the write event is active, and without corked messages that event is active as long as something is queued and the session is not finalized |
| OutQueue.Output.Send | external/nginx-rtmp-module/ngx_rtmp_handler.c:492-564 | for any partial writes: sent bytes are a prefix of the accepted ones in order, each finished message is released once, and it stops only when refused, failed or empty, or at once in a queue that only looks empty |
| OutQueue.Output.FinishMessage | external/nginx-rtmp-module/ngx_rtmp_handler.c:543-556 | the last byte of a message releases what is in its slot, which is another message if the slot has been overwritten, and makes the next one current |
| OutQueue.Output.Close | external/nginx-rtmp-module/ngx_rtmp_init.c:301-304 | closing releases what is queued, so each accepted message is released exactly once, in order; a full queue releases none |
| OutQueue.Shares | external/nginx-rtmp-module/ngx_rtmp_handler.c:717-730 | at priority 0 all slots but one are filled, and each step of priority up to 3 keeps another quarter of them free |
| OutQueue.Output.CorkedIs | external/nginx-rtmp-module/ngx_rtmp_handler.c:741-743 | the most urgent messages are never corked; of the others exactly those that make up less than the cork |
| OutQueue.WrapCounts | external/nginx-rtmp-module/ngx_rtmp_handler.c:717 | one wrapped subtraction counts right if and only if the size divides 2^64 |
| OutQueue.OccupancyRight | external/nginx-rtmp-module/ngx_rtmp_handler.c:717 | in one state, the formula is right if and only if the size divides 2^64 or the ring has not wrapped |
| OutQueue.Output.Store | external/nginx-rtmp-module/ngx_rtmp_handler.c:732-733 | an accepted message goes to the end of the queue; in a full one it takes the first slot |
| OutQueue.Output.Written | external/nginx-rtmp-module/ngx_rtmp_handler.c:539-557 | a partial write sends exactly the next bytes |
| OutQueue.Output.FinishPart | external/nginx-rtmp-module/ngx_rtmp_handler.c:542 | some bytes of a buffer |
| OutQueue.Output.FinishBuffer | external/nginx-rtmp-module/ngx_rtmp_handler.c:543-556 | the end of a buffer makes the next one of the message current |
| OutQueue.Output.Finalize | external/nginx-rtmp-module/ngx_rtmp_init.c:311-330 | closing is only posted: the queue stays as it is |
| OutQueue.Output.StartNext | external/nginx-rtmp-module/ngx_rtmp_handler.c:520-535 | the first buffer of the first queued message is the next to be sent |
| OutQueue.BooksSay | external/nginx-rtmp-module/ngx_rtmp_handler.c:541-556 | the queue is what has been accepted and not yet released; the wire is the front of what has been accepted |
| OutQueueRun.Fill | external/nginx-rtmp-module/ngx_rtmp_handler.c:492-751 | for every other size, a run of the queue itself: one message is sent, and while the socket takes nothing as many are accepted as there are slots; the positions are those of an empty queue, and the first of them is being sent |
| OutQueueRun.FullIsSent | external/nginx-rtmp-module/ngx_rtmp_handler.c:492-564 | if nothing more comes to that queue, every message is sent and released, in order |
| OutQueueRun.OneTooMany | external/nginx-rtmp-module/ngx_rtmp_handler.c:541-556 | if one more message comes, it is accepted; of the size + 2 messages two are sent, and the new one is released in place of the one whose slot it took |
| OutQueueRun.CorkedGetStuck | external/nginx-rtmp-module/ngx_rtmp_handler.c:732-743 | with three slots, corked messages fill the queue while it is idle, and no answer of the socket gets any of them sent |
| OutQueueRun.Saturate | external/nginx-rtmp-module/ngx_rtmp_handler.c:712-751 | a run: how many messages of each priority a new queue takes while its socket takes nothing |
| LiveClock.HeardKeeps | external/nginx-rtmp-module/ngx_rtmp_live_module.c:851-1011 | a packet keeps the clock law for every subscriber it is offered to, whatever its queue takes |
| LiveClock.PausedKeeps | external/nginx-rtmp-module/ngx_rtmp_live_module.c:851-854 | a paused subscriber keeps the law while the publisher's clock moves |
| LiveClock.RelativeWithinSync | external/nginx-rtmp-module/ngx_rtmp_live_module.c:872-1011 | with a sync limit, a relative packet is offered only while at most that much has been dropped |
| LiveClock.ToldStops | external/nginx-rtmp-module/ngx_rtmp_live_module.c:299-361 | starting or stopping resets the clocks, so the law holds for any later publisher clock |
| LiveClock.PausingKeeps | external/nginx-rtmp-module/ngx_rtmp_live_module.c:653-694 | pausing and resuming keep the law |
| LiveClock.FreshIsLawful | external/nginx-rtmp-module/ngx_rtmp_live_module.c:512-563 | a new subscriber obeys the law, on a running stream and on an idle one |
| LiveClock.HeardIsServed | external/nginx-rtmp-module/ngx_rtmp_live_module.c:851-1011 | what a packet does to a subscriber, case by case: a running clock moves or counts as dropped, a starting one waits, starts at the packet's time, or starts behind refused packets; a refused header, coheader or packet; a lost codec header ends the session |
| LiveClock.StartsExactly | external/nginx-rtmp-module/ngx_rtmp_live_module.c:882-986 | a clock that is not running, of a subscriber whose queue takes everything: it runs afterwards, at the time of the packet and with nothing dropped, if and only if the packet is no codec header, no audio before video, and no video but a key frame, as configured |
| LiveRegistry.IndexAdd | external/nginx-rtmp-module/ngx_rtmp_live_module.c:234-259 | a new name is hashed into its bucket from the free list or a new record, and names stay unique |
| LiveRegistry.IndexDrop | external/nginx-rtmp-module/ngx_rtmp_live_module.c:633-641 | an emptied stream leaves its bucket and joins the free list, once |
| LiveRegistry.TellKeeps | external/nginx-rtmp-module/ngx_rtmp_live_module.c:299-336 | a publisher's status change keeps its stream in order |
| LiveRegistry.BroadcastKeeps | external/nginx-rtmp-module/ngx_rtmp_live_module.c:772-1011 | a broadcast keeps its stream in order |
| LiveRegistry.BroadcastWithinSync | external/nginx-rtmp-module/ngx_rtmp_live_module.c:872-1011 | with a sync limit, a time difference is only offered to subscribers that have dropped no more than that |
| LiveRegistry.ReachesServes | external/nginx-rtmp-module/ngx_rtmp_live_module.c:770-1011 | the same for all sessions: the publisher's clock shows the packet's time, each listed unpaused subscriber is served, and nobody else changes |
| LiveRegistry.PublisherLeaves | external/nginx-rtmp-module/ngx_rtmp_live_module.c:594-607 | a leaving publisher stops its stream for the others and keeps it in order |
| LiveRegistry.SubscriberLeaves | external/nginx-rtmp-module/ngx_rtmp_live_module.c:598-607 | a leaving subscriber keeps its stream in order |
| LiveRegistry.PublisherJoins | external/nginx-rtmp-module/ngx_rtmp_live_module.c:534-552 | a joining publisher keeps its stream in order |
| LiveRegistry.SubscriberJoins | external/nginx-rtmp-module/ngx_rtmp_live_module.c:548-563 | a joining subscriber keeps its stream in order |
| LiveRegistry.PauseKeeps | external/nginx-rtmp-module/ngx_rtmp_live_module.c:668-690 | pausing keeps the stream in order |
| Live.Registry.Find | external/nginx-rtmp-module/ngx_rtmp_live_module.c:233-240 | finds a live stream of that name if and only if there is one |
| Live.Registry.GetStream | external/nginx-rtmp-module/ngx_rtmp_live_module.c:223-262 | finds or creates a stream; found if and only if it existed or may be created |
| Live.Registry.Tell | external/nginx-rtmp-module/ngx_rtmp_live_module.c:299-361 | a subscriber's status: unchanged, finalized on a refused message, or clocks reset |
| Live.Registry.TellAll | external/nginx-rtmp-module/ngx_rtmp_live_module.c:299-336 | a publisher's status reaches exactly the subscribers listed |
| Live.Registry.Begin | external/nginx-rtmp-module/ngx_rtmp_live_module.c:446-484 | stream begin and end take effect for a joined publisher only |
| Live.Registry.Join | external/nginx-rtmp-module/ngx_rtmp_live_module.c:488-564 | the four outcomes of joining, each exactly when it happens; only the joining session changes; it is not paused, has no clock running and is told of a running stream; the registry and the clock law are kept |
| Live.Registry.Pause | external/nginx-rtmp-module/ngx_rtmp_live_module.c:653-694 | pausing does what Paused says, or nothing when the notice cannot be sent |
| Live.Registry.Offer | external/nginx-rtmp-module/ngx_rtmp_live_module.c:872-970 | the body of the broadcast loop decides as Choose defines |
| Live.Registry.Deliver | external/nginx-rtmp-module/ngx_rtmp_live_module.c:872-1011 | and leaves the subscriber as Heard defines |
| Live.Registry.Av | external/nginx-rtmp-module/ngx_rtmp_live_module.c:697-1011 | starts the stream if necessary, then serves each listed, unpaused session case by case and no other; time differences stay within the sync limit |
| Live.Registry.CloseStream | external/nginx-rtmp-module/ngx_rtmp_live_module.c:568-649 | leaving: the record is freed if and only if the last member left; without idle streams a leaving publisher finalizes all others; a leaving subscriber changes nobody else |
| Live.ClockLaw | external/nginx-rtmp-module/ngx_rtmp_live_module.c:772-1011 | in every reachable state: subscriber time plus dropped time is the publisher's time modulo 2^32, for each unfinalized subscriber with an active clock |
| Live.NamesAreUnique | external/nginx-rtmp-module/ngx_rtmp_live_module.c:223-262 | live streams have distinct names, and none of them is on the free list |
| Live.ListedIffPointing | external/nginx-rtmp-module/ngx_rtmp_live_module.c:488-649 | a session is listed on a live stream if and only if it points to it; every live stream has a member |
| Live.OnePublisher | external/nginx-rtmp-module/ngx_rtmp_live_module.c:534-552 | a stream is marked published if and only if exactly one listed session publishes |
| Live.Registry.Connect | external/nginx-rtmp-module/ngx_rtmp_live_module.c:505-512 | a new session belongs to no stream |
| Live.Registry.Finalize | external/nginx-rtmp-module/ngx_rtmp_init.c:311-330 | finalizing marks the session and keeps everything in order |
| Live.Registry.Create | external/nginx-rtmp-module/ngx_rtmp_live_module.c:249-259 | a new record for a new name, not yet with a member |
| Live.Registry.SetStatus | external/nginx-rtmp-module/ngx_rtmp_live_module.c:282-361 | start and stop of a joined session, publisher or subscriber |
| Live.Registry.Enter | external/nginx-rtmp-module/ngx_rtmp_live_module.c:548-563 | the session becomes the first of the stream's list, not paused, with no clock running, and told of a running stream |
| Live.Registry.LeaveAsPublisher | external/nginx-rtmp-module/ngx_rtmp_live_module.c:594-627 | the others are told if the stream ran, and finalized unless idle streams are allowed; nobody else changes |
| Live.Registry.LeaveAsSubscriber | external/nginx-rtmp-module/ngx_rtmp_live_module.c:594-627 | only the leaving session changes |
| Live.Registry.FinalizeAll | external/nginx-rtmp-module/ngx_rtmp_live_module.c:609-622 | all remaining members are finalized and nobody else |
| Live.Registry.Drop | external/nginx-rtmp-module/ngx_rtmp_live_module.c:629-641 | the emptied stream is unhashed by its name and freed |
| Live.Registry.Broadcast | external/nginx-rtmp-module/ngx_rtmp_live_module.c:772-1011 | the loop over the members does to each what Heard defines |
| Mp4Table.TimeInRun | external/nginx-rtmp-module/ngx_rtmp_mp4_module.c:1311-1355 | times inside a run of equal differences, from the declarative sum |
| Mp4Table.CellIsReal | external/nginx-rtmp-module/ngx_rtmp_mp4_module.c:1485-1542 | every sample has a chunk and an index in it, by the run-length chunk table |
| Mp4Cursor.AtShowsSample | external/nginx-rtmp-module/ngx_rtmp_mp4_module.c:1930-1944 | a cursor at sample k shows exactly the declarative sample k: time, chunk, index, file offset, size, key flag, delay |
| Mp4Cursor.PlacedShowsSample | external/nginx-rtmp-module/ngx_rtmp_mp4_module.c:1930-1944 | everything but the time comes from the other tables |
| Mp4Cursor.AtIsUnique | external/nginx-rtmp-module/ngx_rtmp_mp4_module.c:1930-1944 | two cursors at the same sample agree in everything that later steps use |
| Mp4Cursor.TickKeepsTime | external/nginx-rtmp-module/ngx_rtmp_mp4_module.c:1311-1355 | one time step moves from sample k to sample k + 1 |
| Mp4Cursor.KeyStepKeeps | external/nginx-rtmp-module/ngx_rtmp_mp4_module.c:1733-1770 | one key step does |
| Mp4Cursor.ChunkStepKeeps | external/nginx-rtmp-module/ngx_rtmp_mp4_module.c:1485-1542 | one chunk step does, across chunk and run borders |
| Mp4Cursor.DelayStepKeeps | external/nginx-rtmp-module/ngx_rtmp_mp4_module.c:1828-1876 | one delay step does |
| Mp4Track.Track.NextTime | external/nginx-rtmp-module/ngx_rtmp_mp4_module.c:1311-1355 | next_time makes that step or fails at the end of the table |
| Mp4Track.Track.NextChunk | external/nginx-rtmp-module/ngx_rtmp_mp4_module.c:1485-1542 | next_chunk makes that step |
| Mp4Track.Track.NextSize | external/nginx-rtmp-module/ngx_rtmp_mp4_module.c:1602-1659 | next_size moves the offset by the sample just passed |
| Mp4Track.Track.Next | external/nginx-rtmp-module/ngx_rtmp_mp4_module.c:1930-1944 | from sample k it succeeds if and only if there is a sample k + 1, and has then come to it; a cursor that is late stays late |
| Mp4Track.Track.SeekTime | external/nginx-rtmp-module/ngx_rtmp_mp4_module.c:1359-1416 | finds the run and the place in it by division, or fails exactly beyond the track and in a run without duration |
| Mp4Track.Track.SeekKey | external/nginx-rtmp-module/ngx_rtmp_mp4_module.c:1774-1824 | moves on to the first key sample at or after the landing, if there is one |
| Mp4Track.Track.SeekChunk | external/nginx-rtmp-module/ngx_rtmp_mp4_module.c:1546-1598 | finds chunk and index of the sample by division |
| Mp4Track.Track.SeekSize | external/nginx-rtmp-module/ngx_rtmp_mp4_module.c:1663-1729 | adds up the sizes before the sample in its chunk |
| Mp4Track.Track.SeekDelay | external/nginx-rtmp-module/ngx_rtmp_mp4_module.c:1880-1926 | finds the delay run of the sample |
| Mp4Track.Track.SeekTrack | external/nginx-rtmp-module/ngx_rtmp_mp4_module.c:2067-2087 | succeeds if and only if the target finds a sample, and has then come to the first key sample from the landing; it is late exactly when the target is the end of a run |
| Mp4Track.RunEndGoesWrong | external/nginx-rtmp-module/ngx_rtmp_mp4_module.c:1372-1383 | samples at 0, a and a + b: seeking to a shows the sample there, and the step from it shows 2a |
| Mp4Track.Track.Play | external/nginx-rtmp-module/ngx_rtmp_mp4_module.c:2067-2087 | seeking and stepping on to the end: what is shown at each step, and that all of it is as declared if and only if the target is not the end of a run or all later differences are those of that run |
| Mp4Track.Track.NextKey | external/nginx-rtmp-module/ngx_rtmp_mp4_module.c:1733-1770 | next_key makes its step |
| Mp4Track.Track.UpdateOffset | external/nginx-rtmp-module/ngx_rtmp_mp4_module.c:1420-1481 | the file offset of the current chunk, or failure beyond the table |
| Mp4Track.Track.NextDelay | external/nginx-rtmp-module/ngx_rtmp_mp4_module.c:1828-1876 | next_delay makes its step |
| Mp4Track.Track.NextPlace | external/nginx-rtmp-module/ngx_rtmp_mp4_module.c:1485-1542 | chunk, index, offset and size together make their step |
| Mp4Track.Track.SeekPlace | external/nginx-rtmp-module/ngx_rtmp_mp4_module.c:1546-1729 | chunk, offset, size and delay of the sample, if and only if it exists |
| Mp4Track.Track.NextRest | external/nginx-rtmp-module/ngx_rtmp_mp4_module.c:1930-1944 | everything but the time makes its step |
| Mp4Track.Track.FinishSeekTime | external/nginx-rtmp-module/ngx_rtmp_mp4_module.c:1395-1416 | the place in the run found, by division |
| Mp4Track.Track.FindKey | external/nginx-rtmp-module/ngx_rtmp_mp4_module.c:1774-1824 | the first key number beyond the sample, by a scan |
| Mp4Track.Track.Walk | external/nginx-rtmp-module/ngx_rtmp_mp4_module.c:1802-1822 | stepping to the key sample |
| Mp4Track.Track.FindChunkRun | external/nginx-rtmp-module/ngx_rtmp_mp4_module.c:1546-1598 | the run of chunks that holds the sample |
| Mp4Seek.LandingIsLast | external/nginx-rtmp-module/ngx_rtmp_mp4_module.c:1359-1416 | the sample a seek lands on is the last one whose time is at most the target |
| Mp4Seek.ShownIsRight | external/nginx-rtmp-module/ngx_rtmp_mp4_module.c:1372-1383 | a late cursor shows the declared sample k if and only if k is the one sought or the difference before it is that of the run that had ended |
| Mp4Seek.EndOfIs | external/nginx-rtmp-module/ngx_rtmp_mp4_module.c:1372-1383 | a seek is late if and only if its target is the time at which some run ends |
| Mp4Seek.FollowsShows | external/nginx-rtmp-module/ngx_rtmp_mp4_module.c:1930-1944 | what a cursor shows, late or not |
| Mp4Seek.AllRight | external/nginx-rtmp-module/ngx_rtmp_mp4_module.c:1372-1383 | everything shown is right if and only if the seek is not late or the differences still used are the same |
| Mp4Seek.TickKeepsLate | external/nginx-rtmp-module/ngx_rtmp_mp4_module.c:1311-1355 | stepping keeps a late cursor late: it shows the sum up to the sample before, plus the difference of the run that had ended |
| AmfSchema.AgreeOne | external/nginx-rtmp-module/ngx_rtmp_amf.c:310-464 | reading one element with any plain descriptor ends like skipping it: same status, same rest |
| AmfSchema.AgreeObject | external/nginx-rtmp-module/ngx_rtmp_amf.c:173-246 | the same for objects, whatever keys the descriptor names |
| AmfSchema.AgreeArray | external/nginx-rtmp-module/ngx_rtmp_amf.c:250-269 | the same for arrays |
| AmfSchema.AgreeVariant | external/nginx-rtmp-module/ngx_rtmp_amf.c:273-297 | the same for a VARIANT and its alternatives |
| AmfSchema.TrapDisagrees | external/nginx-rtmp-module/ngx_rtmp_amf.c:273-297 | an end marker read by a VARIANT that is not last: reading fails where skipping succeeds |
| AmfSchema.ConsumptionIsSchemaIndependent | external/nginx-rtmp-module/ngx_rtmp_amf.c:310-464 | a descriptor list ends like skipping on all bytes if and only if a VARIANT is only ever its last element |
| AmfSchema.OtherTypeLeavesIt | external/nginx-rtmp-module/ngx_rtmp_amf.c:300-350 | a type on the wire that is not the descriptor's, nor the other one of object and mixed array, leaves the descriptor as it was, and so does any type if it has CONTEXT |
| AmfSchema.TypesAre | external/nginx-rtmp-module/ngx_rtmp_amf.c:353-456 | the types without contents, and the type bytes that are errors |
| AmfSchema.ObjectEnds | external/nginx-rtmp-module/ngx_rtmp_amf.c:199-245 | an object may end where the bytes end; an empty key must be followed by 9 |
| AmfSchema.SameNameIs | external/nginx-rtmp-module/ngx_rtmp_amf.c:230-233 | keys are compared by length, and by bytes up to the end or to a zero |
| AmfSchema.TextMeans | external/nginx-rtmp-module/ngx_rtmp_amf.c:367-392 | a string is cut to the room of its descriptor, with a byte kept for the final zero, and the cursor is behind all of it |
| AmfRoundTrip.OneRoundTrip | external/nginx-rtmp-module/ngx_rtmp_amf.c:310-464 | reading what was written for one element with a fitting descriptor restores its tree and stops behind it; an object may be read as a mixed array and the other way round |
| AmfRoundTrip.FieldsRoundTrip | external/nginx-rtmp-module/ngx_rtmp_amf.c:468-500 | the same for the fields of an object with nonempty distinct keys |
| AmfRoundTrip.ItemsRoundTrip | external/nginx-rtmp-module/ngx_rtmp_amf.c:504-526 | the same for the elements of an array |
| AmfRoundTrip.RoundTrip | external/nginx-rtmp-module/ngx_rtmp_amf.c:530-647 | the same for a list of elements, with any bytes behind it |
| AmfRoundTrip.EncodingIs | external/nginx-rtmp-module/ngx_rtmp_amf.c:541-553 | a type byte, unless the element is typeless, and its contents |
| AmfRoundTrip.ScalarEncoding | external/nginx-rtmp-module/ngx_rtmp_amf.c:555-639 | what types 0, 1, 5, 6 and the integers are written as |
| AmfRoundTrip.CountedEncoding | external/nginx-rtmp-module/ngx_rtmp_amf.c:571-615 | what types 2 and 10 are written as |
| AmfRoundTrip.FieldsEncoding | external/nginx-rtmp-module/ngx_rtmp_amf.c:592-607 | what types 3 and 8 are written as |
| AmfRoundTrip.FieldsAre | external/nginx-rtmp-module/ngx_rtmp_amf.c:475-497 | each field is the length of its key, the key, and the element |
| AmfRoundTrip.VariantRoundTrip | external/nginx-rtmp-module/ngx_rtmp_amf.c:272-297 | an element is restored in the last alternative of exactly its type, and the others stay |
| AmfRoundTrip.VariantForgets | external/nginx-rtmp-module/ngx_rtmp_amf.c:272-297 | an element of a type without an alternative is read and forgotten |
| AmfRoundTrip.RoundTripShort | external/nginx-rtmp-module/ngx_rtmp_amf.c:451-452 | an end marker behind fewer elements than descriptors: the elements are restored and the other descriptors stay |
| AmfRoundTrip.RoundTripOptional | external/nginx-rtmp-module/ngx_rtmp_amf.c:328-336 | where the bytes end, an OPTIONAL descriptor ends the list successfully and any other is an error |
| AmfChain.Pull | external/nginx-rtmp-module/ngx_rtmp_amf.c:67-113 | n bytes from a chain of buffers of any sizes are the first n of the flat bytes, or nothing when there are fewer |
| AmfChain.Source.Get | external/nginx-rtmp-module/ngx_rtmp_amf.c:67-113 | the cursor moves past exactly those bytes, or stays |
| AmfChain.Sink.Put | external/nginx-rtmp-module/ngx_rtmp_amf.c:117-169 | the chain's contents grow by exactly the bytes; all buffers but the last are full |
| AmfChain.LongestName | external/nginx-rtmp-module/ngx_rtmp_amf.c:183-188 | no key longer than the longest name is found |
| AmfChain.Source.ReadElt | external/nginx-rtmp-module/ngx_rtmp_amf.c:310-464 | the recursive reader over a chain does what the flat reader does |
| AmfChain.Source.ReadFields | external/nginx-rtmp-module/ngx_rtmp_amf.c:173-246 | the object loop, with keys cut to the longest name, does |
| AmfChain.Source.ReadItems | external/nginx-rtmp-module/ngx_rtmp_amf.c:250-269 | the array loop does |
| AmfChain.Source.ReadText | external/nginx-rtmp-module/ngx_rtmp_amf.c:367-392 | strings read in two parts do |
| AmfChain.Source.ReadAlternative | external/nginx-rtmp-module/ngx_rtmp_amf.c:273-297 | the variant reader does |
| AmfChain.Source.ReadElts | external/nginx-rtmp-module/ngx_rtmp_amf.c:310-464 | the loop over a descriptor list does |
| AmfChain.Carry | external/nginx-rtmp-module/ngx_rtmp_amf.c:311-648 | elements written into buffers of any capacity and read from any chain with those bytes: the same trees, and exactly the bytes behind them are left |
| AmfChain.Sink.Write | external/nginx-rtmp-module/ngx_rtmp_amf.c:530-647 | succeeds if and only if every type is supported, and then adds exactly the encoding |
| AmfChain.Sink.WriteFields | external/nginx-rtmp-module/ngx_rtmp_amf.c:468-500 | the object writer adds the encodings of its fields |
| AmfChain.Sink.WriteItems | external/nginx-rtmp-module/ngx_rtmp_amf.c:504-526 | the array writer adds those of its elements |
| AmfChain.SupportedIs | external/nginx-rtmp-module/ngx_rtmp_amf.c:555-643 | the types that can be written |
| AmfChain.Source.ReadContent | external/nginx-rtmp-module/ngx_rtmp_amf.c:353-455 | the type switch over a chain does what the flat one does |
| AmfChain.Source.ReadKey | external/nginx-rtmp-module/ngx_rtmp_amf.c:203-233 | a key is found though only as much of it is kept as the longest name has |
| AmfChain.Sink.WriteBody | external/nginx-rtmp-module/ngx_rtmp_amf.c:555-645 | the type switch of the writer adds the encoding of the contents |
| AmfChain.Sink.WriteObject | external/nginx-rtmp-module/ngx_rtmp_amf.c:468-500 | an object is its fields, an empty key and an end marker |
| Aggregate.Splitter.Fetch | external/nginx-rtmp-module/ngx_rtmp_receive.c:217-230 | the next byte along the links, from the first buffer that has one |
| Aggregate.Splitter.FetchAll | external/nginx-rtmp-module/ngx_rtmp_receive.c:241-256 | the next n bytes, if and only if there are as many |
| Aggregate.Splitter.Limit | external/nginx-rtmp-module/ngx_rtmp_receive.c:311-329 | the buffer in which the message ends, if and only if more bytes than its length are left |
| Aggregate.Splitter.Deliver | external/nginx-rtmp-module/ngx_rtmp_receive.c:331-347 | the receiver of the cut chain gets exactly the payload; afterwards links and limits are as before |
| Aggregate.Splitter.Handle | external/nginx-rtmp-module/ngx_rtmp_receive.c:260-364 | delivers what the flat parser delivers, however the bytes are spread over the chain, and leaves the chain linked and limited as it was; so a laid-out aggregate is delivered as the messages it was made from |
| Aggregate.PrintAllSays | external/nginx-rtmp-module/ngx_rtmp_receive.c:277-357 | messages can be laid out as an aggregate: type, length, time with its heaviest byte last, stream id, payload, and the size of all that |
| Aggregate.PrintedIsMeant | external/nginx-rtmp-module/ngx_rtmp_receive.c:272-364 | a laid-out aggregate is delivered as exactly those types, stream ids and payloads, the i-th one at the time of the aggregate plus what has passed since the first one |
| Aggregate.PrintedThen | external/nginx-rtmp-module/ngx_rtmp_receive.c:272-364 | behind laid-out messages the parser goes on with whatever follows |
| Aggregate.ShortHeadIsBad | external/nginx-rtmp-module/ngx_rtmp_receive.c:278-298 | a message header that is cut short is an error |
| Aggregate.CutMessage | external/nginx-rtmp-module/ngx_rtmp_receive.c:313-357 | a message with nothing behind it is an error; with one to three bytes it is delivered and is the last one |
| Aggregate.Splitter.Collect | external/nginx-rtmp-module/ngx_rtmp_receive.c:336-340 | what a receiver gets along the links |
| Aggregate.Splitter.Message | external/nginx-rtmp-module/ngx_rtmp_receive.c:291-358 | one message: what is delivered, and where or how it goes on |
| Aggregate.Splitter.SkipSize | external/nginx-rtmp-module/ngx_rtmp_receive.c:353-358 | the previous size is skipped, or the handler ends successfully |
| BitReader.FieldIsValue | external/nginx-rtmp-module/ngx_rtmp_bitop.c:38-41 | shift and mask give the big-endian value of the bits |
| BitReader.ValueJoins | external/nginx-rtmp-module/ngx_rtmp_bitop.c:31-50 | two consecutive reads compose to one |
| BitReader.Pull | external/nginx-rtmp-module/ngx_rtmp_bitop.c:23-51 | the value of the next n bits at any alignment, modulo 2^64, or nothing when there are fewer |
| BitReader.Reader.Read | external/nginx-rtmp-module/ngx_rtmp_bitop.c:23-51 | the same in place; a failed read uses up all bits and sets the error |
| BitReader.Reader.ReadGolomb | external/nginx-rtmp-module/ngx_rtmp_bitop.c:54-63 | fails if and only if no whole code comes next; otherwise reads exactly 2n + 1 bits; where ue(w) comes next, for every w below 2^64 - 1, the result is w and the code is passed over |
| BitReader.GolombInverts | external/nginx-rtmp-module/ngx_rtmp_bitop.c:54-63 | the bits of ue(v) are a code that says v, and the rest follows |
| BitReader.Reader.CountZeros | external/nginx-rtmp-module/ngx_rtmp_bitop.c:58 | leading zeros up to a one bit, or failure if and only if there is none |
| Handshake.SlotInside | external/nginx-rtmp-module/ngx_rtmp_handshake.c:150-156 | both digest slots lie inside the packet |
| Handshake.WrittenIsFound | external/nginx-rtmp-module/ngx_rtmp_handshake.c:144-188 | a written digest is found again, and nothing before it changed |
| Handshake.ChallengeIsRecognised | external/nginx-rtmp-module/ngx_rtmp_handshake.c:259-330 | a created challenge is always recognised as digest-style |
| Handshake.StepKeeps | external/nginx-rtmp-module/ngx_rtmp_handshake.c:376-576 | every send or receive of any size keeps the two-party invariant and makes progress, also while a side that is done goes on sending |
| Handshake.HandshakeIsSafe | external/nginx-rtmp-module/ngx_rtmp_handshake.c:376-576 | in every reachable state neither side failed or took the other for an old one; a side that is done has read exactly 1537 + 1536 bytes, and all that the other side sent after its own handshake is still in front of its chunk receiver |
| Handshake.HandshakeCompletes | external/nginx-rtmp-module/ngx_rtmp_handshake.c:376-576 | a run in which no handshake step is possible has brought both sides to DONE |
| Handshake.RunKeeps | external/nginx-rtmp-module/ngx_rtmp_handshake.c:376-576 | every run keeps the invariant, and its handshake steps are no more than the bytes to be moved |
| Flv.WrittenIsRead | external/nginx-rtmp-module/ngx_rtmp_flv_module.c:429-495 | reading from offset 13 yields exactly the frames written: type, time, body |
| Flv.RecordingResumes | external/nginx-rtmp-module/ngx_rtmp_record_module.c:506-579 | append-mode open finds the end of a recording and its last timestamp; an empty recording starts over |
| Flv.Recorder.Reopen | external/nginx-rtmp-module/ngx_rtmp_record_module.c:506-579 | the same in place |
| Flv.Recorder.Record | external/nginx-rtmp-module/ngx_rtmp_record_module.c:1090-1101 | the first frame since the file was opened gets exactly the last time of the file, later ones what has passed since it more; the file is the concatenation of the tags |
| Flv.FileGrows | external/nginx-rtmp-module/ngx_rtmp_record_module.c:873-968 | the file of a longer recording is the shorter one followed by the new tags |
| Flv.AppendTimeIs | external/nginx-rtmp-module/ngx_rtmp_record_module.c:890-897 | when an appended time goes on, and when it is cut to 0 |
| Flv.AppendedTimes | external/nginx-rtmp-module/ngx_rtmp_record_module.c:890-897 | while they stay below 2^31, the times of appended frames are the last old time plus the time passed since the first appended frame |
| Flv.Recorder.Append | external/nginx-rtmp-module/ngx_rtmp_record_module.c:506-579 | a whole appended recording: the old file, followed by the tags of the new frames, with times that go on from the last old one |
| Flv.Recorder.WriteFrame | external/nginx-rtmp-module/ngx_rtmp_record_module.c:873-968 | one frame from a chain of buffers becomes one tag |
| Flv.Length | external/nginx-rtmp-module/ngx_rtmp_record_module.c:984-995 | the length of a chain is that of its concatenation |
| Flv.Player.Next | external/nginx-rtmp-module/ngx_rtmp_flv_module.c:429-521 | one step finds the tag at the offset and moves behind it; frames that fit are offered relative to the last one read of their kind, once one of that kind has been taken |
| Flv.Player.PlayAll | external/nginx-rtmp-module/ngx_rtmp_flv_module.c:429-521 | playing to the end offers exactly the frames that fit the buffer, once each, whatever the queue takes; the clock of any receiver, for audio and for video, moves over what is sent as ClockAfter says of all frames read |
| Flv.LostFrameDelays | external/nginx-rtmp-module/ngx_rtmp_flv_module.c:457-521 | a recording of three audio frames at 0, 10 and 20 is played; the second one is refused or too big; the receiver hears the third one at 10 |
| Flv.FileHeaderIs | external/nginx-rtmp-module/ngx_rtmp_record_module.c:246-260 | the file header by its bytes |
| Flv.PlayableIs | external/nginx-rtmp-module/ngx_rtmp_flv_module.c:455-471 | tags 8 and 9 are played |
| Flv.TagIs | external/nginx-rtmp-module/ngx_rtmp_record_module.c:894-968 | every frame is written as the tag the format prescribes, by byte positions |
| Flv.TagMeans | external/nginx-rtmp-module/ngx_rtmp_flv_module.c:429-496 | any bytes: the tag found is what they say |
| Flv.ResumeStartsOver | external/nginx-rtmp-module/ngx_rtmp_record_module.c:506-579 | any file whose last size is 0, or more than there is in front of it, is started over |
| Flv.ResumeGoesOn | external/nginx-rtmp-module/ngx_rtmp_record_module.c:506-579 | any other file goes on at its end, at the time of the tag the last size leads to if there is one and it has just this size, and else at 0 |
| Flv.SmallIs | external/nginx-rtmp-module/ngx_rtmp_flv_module.c:481-486 | frames of up to 2^20 bytes are offered |
| Flv.SpelledResumes | external/nginx-rtmp-module/ngx_rtmp_record_module.c:530-575 | the size at the end of a file leads back to the head of its last tag |
| Flv.Recorder.PutChain | external/nginx-rtmp-module/ngx_rtmp_record_module.c:941-952 | the buffers of a chain are written one after the other |
| Flv.ReadHead | external/nginx-rtmp-module/ngx_rtmp_flv_module.c:429-449 | the fields of the tag header at an offset |
| FlvClock.LagStep | external/nginx-rtmp-module/ngx_rtmp_flv_module.c:457-521 | one frame makes the receiver fall behind by its time difference exactly when it is lost after another one was taken |
| FlvClock.LagIsLost | external/nginx-rtmp-module/ngx_rtmp_flv_module.c:457-521 | in every run, from every state, the receiver falls behind by exactly the time lost |
| FlvClock.ClockLaw | external/nginx-rtmp-module/ngx_rtmp_flv_module.c:457-521 | once a frame has been taken, the clock plus the time lost is the time of the last frame read; the clock is right if and only if no time was lost |
| FlvClock.AlwaysRight | external/nginx-rtmp-module/ngx_rtmp_flv_module.c:457-521 | every frame taken is heard at its own time, if and only if before each of them the last frame read has the time of the last one taken |
| PageProtect.RoundDown | runtime/libia2/ia2.c:526 | the start of the page that holds the address: a page border, at or less than a page below it |
| PageProtect.RoundUp | runtime/libia2/ia2.c:527 | the first page border at or above the address, less than a page above it; 0 for an address beyond the last border |
| PageProtect.SegmentPages | runtime/libia2/ia2.c:564-565 | a segment is exactly the pages that start before its end, from the page of its start on |
| PageProtect.ExactByAddress | runtime/libia2/ia2.c:488-617 | where no address wraps, what is protected is exactly the pages of a writable LOAD segment that are in no listed section and on no page of the first RELRO segment |
| PageProtect.AddressesProtected | runtime/libia2/ia2.c:488-617 | every address of the segment is protected or shared; nothing 4096 bytes or more outside it, and nothing of the RELRO segment, is protected |
| PageProtect.AlignedFixpoint | runtime/libia2/ia2.c:499-516 | rounding leaves an address alone if and only if it is page-aligned |
| PageProtect.Gap | runtime/libia2/ia2.c:568-589 | one pass over the shared ranges, in any order, skips only shared addresses, ends before the next one, and makes progress |
| PageProtect.ProtectSegment | runtime/libia2/ia2.c:564-616 | the pages protected are exactly the segment without the shared ranges, each once, in ascending order |
| PageProtect.SectionRanges | runtime/libia2/ia2.c:488-518 | the sections up to the first NULL, and at most four; exits if and only if one of them is not page-aligned |
| PageProtect.WithRelro | runtime/libia2/ia2.c:519-530 | adds the first RELRO segment, rounded |
| PageProtect.ProtectPages | runtime/libia2/ia2.c:488-617 | for every program header: a writable LOAD segment minus the shared ranges, and nothing for the others; the same by addresses, where none wraps |
| HandshakeReply.ResponseIs | external/nginx-rtmp-module/ngx_rtmp_handshake.c:333-353 | a response is 1504 bytes and their digest |
| HandshakeReply.DigestIs | external/nginx-rtmp-module/ngx_rtmp_handshake.c:143-166 | the digest found in a challenge is the one of everything around it, at a place given by four bytes |
| HandshakeReply.RunAnswers | external/nginx-rtmp-module/ngx_rtmp_handshake.c:376-576 | in every run each side has the key made from the other's digest once it has its challenge, and what it sends of its response is made with it |
| HandshakeReply.ServerAnswers | external/nginx-rtmp-module/ngx_rtmp_handshake.c:376-576 | what a server has sent in any run: its challenge, and 1504 bytes with their digest under the key made from the digest in the client's challenge |
| HandshakeReply.ClientAnswers | external/nginx-rtmp-module/ngx_rtmp_handshake.c:376-576 | the same for a client |
| HandshakePeer.ParseIs | external/nginx-rtmp-module/ngx_rtmp_handshake.c:279-330 | a challenge is refused exactly if it does not start with 3, and taken for an old one exactly if its version is zero or there is no digest at either place |
| HandshakePeer.ChallengeIs | external/nginx-rtmp-module/ngx_rtmp_handshake.c:258-276 | a challenge starts with 3, the epoch with its heaviest byte first, and the version |
| HandshakePeer.ServerMeets | external/nginx-rtmp-module/ngx_rtmp_handshake.c:376-576 | a server against any peer, in every run: it says nothing before 1537 bytes have come, nor if they do not start with 3; an old peer gets its own bytes back; any other one gets a challenge and a response |
| HandshakePeer.ClientMeets | external/nginx-rtmp-module/ngx_rtmp_handshake.c:376-576 | a client against any server, in every run: it answers only after 3073 bytes, with a digest if it found one and else with random bytes |
| Allowlist.HasSegmentPrefix | runtime/tracer/forbid_paths.c:60-75 | the character loop decides HasPrefix |
| Allowlist.PrefixIsBySegments | runtime/tracer/forbid_paths.c:60-75 | HasPrefix of two absolute names holds if and only if one path is a prefix of the other, segment by segment |
| Allowlist.Visit | runtime/tracer/forbid_paths.c:98-152 | the callback decides as Decide defines: skip, stop, or a rule with the rights for its kind of file; it stops exactly when a rule fails outside /proc or above a forbidden path |
| Allowlist.ForbiddenStaysForbidden | runtime/tracer/forbid_paths.c:98-152 | the union of all rules gives a forbidden path and everything below it at most READ_DIR: exactly that, or nothing if the root is forbidden or its rule cannot be added |
| Allowlist.AllElseIsAllowed | runtime/tracer/forbid_paths.c:98-152 | and gives every walked file that is neither under nor above a forbidden path all rights that apply to it: every right on a directory, and four on a file |
| Allowlist.WalkRules | runtime/tracer/forbid_paths.c:98-152 | every rule is for a file not under a forbidden path, and only for reading if above one |
| Allowlist.WalkReaches | runtime/tracer/forbid_paths.c:98-152 | every walked file outside the forbidden paths is at or below a rule with all its rights |
| Amf.ReadOne | external/nginx-rtmp-module/ngx_rtmp_amf.c:310-464 | reading never goes back, and consumes at least one byte unless the descriptor has no type byte or is optional at the end: what the recursion terminates on |

## Left out

- Changing the chunk size in the middle of a session: the receive chunk size is a constant of the session.
- Acknowledgements, byte counters, bandwidth, pings and timers of the receive and send loops.
- What message handlers do: a handler is a function that accepts or refuses a message. Allocation failures.
- ChunkReceiver.Session.Recv: a handler that changes the session while it runs is not modelled.
- ChunkSender.PrepareMessage: for a stream id of 0 or 1 the first buffer must have two bytes behind its start, because the header is that much longer than its room (`HeaderFits`); a buffer without them would be written beyond its end.
- ChunkRoundTrip.WireRoundTrip: format 3 as the first chunk is admitted exactly where it is delivered right (`DeliveredExactly`).
- OutQueue.Output.SendMessage: every buffer of a message holds at least its chunk header, as those of prepared messages do. The product of priority and queue size wraps for sizes of about 2^62.4 and more, which no memory holds; it is taken without wrapping.
- Live: metadata messages, dummy audio packets, bandwidth and idle timers; whether codec headers exist is part of the packet. Names are shorter than 256 bytes, as the buffers of all callers are.
- Mp4Track.Track.Next: tables are well formed, with positive run lengths, increasing chunk and key numbers, equal sample counts and totals below 2^32. The box parser that builds them is not part of this model.
- AmfSchema.ConsumptionIsSchemaIndependent: after an error the position of the cursor is not part of the result. It does depend on the descriptor; callers do not read on after an error.
- Amf: the context saved by CONTEXT descriptors, and the layout of numbers in memory other than byte order.
- AmfChain.Source.ReadElt: descriptors are values that are returned filled, so two descriptors that share memory are not modelled.
- BitReader.Reader.ReadGolomb: the value of a code with 64 or more leading zeros is not stated, because the C shift is undefined there.
- Aggregate.Splitter.Handle: a receiver of a sub-message does not change the chain it is given.
- Flv.Player.Next: seeking by the file's index, and timing.
- Flv.Recorder.Record: which frames are recorded, codec headers, size and frame limits, and write errors.
- EndToEnd.Link.Submit: the queue is not full, which it never is if its size divides 2^64 (`AlwaysRoom`). Stream ids are 2 or more: the header of 0 and 1 covers two bytes of the payload, so that such a message is not on the wire as it was meant (`BasicHeaderExact`). The payload is shorter than 2^32 bytes, as any length the code can count. A connection has one sender and one receiver, and its chains are queued once; chains shared by several queues are in `SharedRun`.
- Handshake.HandshakeCompletes: endpoints are values that step through the stages; the socket loops appear as steps of any size. Timeouts and closed connections are left out.
- Handshake: the digest is an arbitrary function of key and data with 32 bytes.
- PageProtect.ProtectPages: which libraries are protected (`in_loaded_segment`, `in_extra_libraries`), the probing reads, and failing system calls.
- Allowlist.AllElseIsAllowed: resolving the forbidden paths to real paths, and reading the tree while others change it.
- Relay, netcall, notify, exec, auto-push, statistics, control, HLS, DASH, and configuration.
- The rest of the IA2 runtime: protection keys, call gates, thread-local storage, the tracer's memory map and system call filter.
