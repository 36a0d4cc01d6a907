# Verified models of omq.rs

A Dafny 4.11 project that models the queues, buffers and protocols at the centre of omq.rs, a
ZeroMQ implementation in Rust with a C interface and a Go binding, and proves what they promise.
`dafny verify dfyconfig.toml` checks everything.

| part | files | form |
|---|---|---|
| Inproc byte ring with a parking sender | `Words`, `RingLog`, `InprocPipe`, `RingInvariant`, `InprocPipeInvariant`, `InprocPipeTheorems`, `InprocPipeWakeup`, `InprocPipeSignal`, `InprocPipeOutcomes`, `InprocPipeCrash` | two-thread step system, one step per load or store of a shared word or byte |
| The same ring as two objects | `InprocRing`, `InprocRingConsumer` | classes over a shared array, linked to the step system |
| Go send ring and its native worker | `SendRing`, `SendRingInvariant`, `SendRingTheorems`, `SendRingReclaim`, `SendRingOutcomes`, `GoSendRing` | step system, and a class linked to it |
| Messages | `Message` | nine storage forms against one list of parts |
| ZMTP framing, frame buffer, fan-out | `FrameCodec`, `FrameBuffer`, `FrameBufferRuns`, `FanOut` | codec functions, a class, whole runs |
| REQ and REP | `TypeState` | transition functions and a class equal to them, exchanges over any number of hops, whole runs |
| Steerable proxy | `ProxyLedger`, `Proxy` | class with unconstrained socket answers, trace properties |
| Context termination | `ContextTerm`, `ContextHang` | step system over any number of sockets |
| SNDMORE and RCVMORE | `MultipartFrames` | transition functions and two classes equal to them, whole runs |
| `zmq_msg_t` memory | `MsgOwnership` | functions on a heap of blocks and a class equal to them, whole runs |
| Endpoint text | `Endpoint` | functions |

Conventions. Interleaving is sequentially consistent. Cursors are 64-bit with explicit wrap-around;
capacities are powers of two. The ring's length header, native-endian in the source, is taken as
little-endian. Loads from another thread, clocks, allocation results and the answers of sockets are
parameters, steps or unconstrained choices. History variables (logs, traces, owners) never influence
a step. Where a comment and the code differ the code is modelled: besides the items below, the wildcard
host is documented to cover 0.0.0.0 and ::, but only `*` and an empty host parse to it.

## Where the code does less than its comments or callers may expect

Each item has a concrete witness and, beside it, the exact condition.

- An empty message in the last four bytes of the byte ring makes the receiver panic, on every ring
  that can hold one (`EmptyMessageCrashesReceiver`, `CrashPossibleExactly`, `PeekPanicsExactlyAtEnd`).
- `flush` decides on a head loaded before the tail is stored, so a receiver that drains in between
  is not signalled (`SignalCanBeMissing`, `SignalDecidedAtLoad`). Receivers recover because each
  wait is bounded and followed by another look.
- `prepend_empty_delimiter` adds no part to the two compact delimited forms
  (`SecondDelimiterLost`, `DelimiterAddedExactly`), so such a request loses its first part on the way
  to REP (`Exchange`).
- `is_multipart` is true for a heap list of one part (`PrefixedEmptyIsLone`, `IsMultipartExactly`).
- REP does not refuse a second request before its reply (`SecondRequestReplacesFirst`); it
  accepts exactly the requests with a delimiter (`RecvStepMeans`).
- A fan-out of more than 1024 chunks hands out a truncated encoding (`LongMessageIsCutShort`,
  `BuildFanOutFrame`, `PartsBoundChunks`).
- `zmq_ctx_term` can miss its notification and sleep on, absent spurious wake-ups
  (`TermCanSleepForever`, `HangsExactlyWhenBusy`), and a socket call that straddles the shutdown can
  outlive it (`StraddlerOutlivesTerm`, `TermWaitsForAll`).
- A multipart message refused at submission loses the frames buffered before the last one
  (`RetrySendsTailAlone`, `SendBytes`, `SendsAreConserved`).
- A waiting `zmq_msg_recv` that finds its bypass peer gone reports that before it has looked at the
  regular queue (`GoneBeforeQueued`); no other call without a frame leaves anything in use queued
  (`OneResultPerCall`).
- The Go ring's reclamation reads descriptors that were overwritten since
  (`ReclaimVisitsStaleDescriptor`, `StaleDescriptor`); the end it arrives at is right all the same
  (`ReclaimIsExact`).

## Model

| member | source | states |
|---|---|---|
| `InprocPipeInvariant.StepKeepsInv` | omq-libzmq/src/inproc_bypass.rs:176-457 | every atomic step of either thread (single bytes included) keeps the ring invariant: cursors are wrapped record boundaries in order, the published region parses into whole records, a wrap record is followed by an entry and never last, unreleased records are intact byte for byte |
| `InprocPipeInvariant.RunKeepsInv` | omq-libzmq/src/inproc_bypass.rs:160-457 | the invariant holds in every state of every run from an empty ring of any power-of-two capacity |
| `InprocPipeTheorems.StepRefinesFifo` | omq-libzmq/src/inproc_bypass.rs:176-320 | each step of the byte ring is an enqueue, a publication or a dequeue of an abstract FIFO of byte strings, or invisible to it |
| `InprocPipeTheorems.DeliveredInOrder` | omq-libzmq/src/inproc_bypass.rs:176-325 | under every interleaving, payloads taken are a prefix of those flushed, which are a prefix of those pushed, byte for byte and in order |
| `InprocPipeTheorems.EmptyPeekMeansDrained` | omq-libzmq/src/inproc_bypass.rs:262-268 | a peek returns nothing exactly when every published record has been passed, and then everything flushed has been taken |
| `InprocPipeTheorems.CursorsStayClose` | omq-libzmq/src/inproc_bypass.rs:87-127 | in every run the distance from head to tail is at most capacity minus 4 in 64-bit wrapping arithmetic, all cursors are 4-aligned, and a stale cached head only underestimates the space |
| `InprocPipeTheorems.StoresMissUnread` | omq-libzmq/src/inproc_bypass.rs:209-246 | no byte the sender stores lies inside a record the receiver has not released, and every store is inside the buffer |
| `InprocPipeTheorems.PushDecidedBySpace` | omq-libzmq/src/inproc_bypass.rs:180-225 | try_push refuses only when the true head leaves too little room and starts to write only when there is room, whatever the cached head |
| `InprocRing.UpToHalfAccepted` | omq-libzmq/src/inproc_bypass.rs:180-227 | try_push accepts every payload below the sentinel length whose aligned entry takes at most half the capacity, at every tail and whatever head was cached, once it loads a head equal to the tail |
| `InprocRing.HalfTheCapacityExactly` | omq-libzmq/src/inproc_bypass.rs:180-227 | an empty ring accepts a payload at every cursor if and only if it is below the sentinel length and its aligned entry takes at most half the capacity |
| `InprocPipeTheorems.PeekPanicsExactlyAtEnd` | omq-libzmq/src/inproc_bypass.rs:295-312 | the checked index behind a peeked header leaves the buffer exactly when the entry is empty and occupies the last four bytes |
| `InprocPipeTheorems.NothingElseFaults` | omq-libzmq/src/inproc_bypass.rs:176-325 | no other index of either thread can leave the buffer in any reachable state |
| `InprocPipeTheorems.NonEmptyNeverPanics` | omq-libzmq/src/inproc_bypass.rs:262-313 | in runs that push no empty payload the receiver never panics |
| `InprocPipeCrash.EmptyMessageCrashesReceiver` | omq-libzmq/src/inproc_bypass.rs:295-312 | on every ring of at least eight bytes, a run from the initial state in which an empty message makes the receiver panic |
| `InprocPipeCrash.CrashPossibleExactly` | omq-libzmq/src/inproc_bypass.rs:295-312 | for every capacity, some reachable state has a panicked receiver if and only if the ring has at least eight bytes, that is, can hold a message at all |
| `InprocPipeWakeup.NoLostWakeup` | omq-libzmq/src/inproc_bypass.rs:405-435 | in every run, a sender parked without token on an open pipe has too little room at the current head or a receiver step that will unpark it is pending (payload shorter than the sentinel length) |
| `InprocPipeWakeup.ClosingWakes` | omq-libzmq/src/inproc_bypass.rs:38-54 | in every run, a sender parked on a closed pipe has its token or the closer is about to give it |
| `InprocPipeWakeup.PendingWakeDelivers` | omq-libzmq/src/inproc_bypass.rs:46-53 | in every run, once the receiver has taken two steps after a wake became pending, with any other steps in between, the sender holds its token or has left the park |
| `InprocPipeWakeup.ClosedReturnsEterm` | omq-libzmq/src/inproc_bypass.rs:411-428 | a sender that wakes on a closed pipe leaves the loop with ETERM, whatever the other thread does, and pushes nothing |
| `InprocPipeOutcomes.PushMeans` | omq-libzmq/src/inproc_bypass.rs:385-435 | in every run, from a push call to its return: push never parks; at the return everything pushed is published; success means that exactly this payload was pushed, EAGAIN (push only) and ETERM that nothing was; ETERM means closed, and a call on a closed pipe returns it |
| `InprocPipeOutcomes.GoneMeans` | omq-libzmq/src/inproc_bypass.rs:327-343 | in every run a half that is gone has closed the pipe, and a sender that is gone has published everything |
| `InprocPipeOutcomes.DropFlushes` | omq-libzmq/src/inproc_bypass.rs:327-337 | a dropped sender unparks a waiting thread and flushes before it is gone |
| `InprocPipeOutcomes.ClosingNotifies` | omq-libzmq/src/inproc_bypass.rs:39-44 | whichever half closes the pipe first raises the receiver's event |
| `InprocPipeSignal.SignalDecidedAtLoad` | omq-libzmq/src/inproc_bypass.rs:247-255 | in every run a flush decides to signal exactly when, at the moment it loads the head, the receiver has released everything published so far |
| `InprocPipeOutcomes.SignalledExactly` | omq-libzmq/src/inproc_bypass.rs:247-255 | in every run, a flush publishes at its tail store, and its next step raises the receiver's event exactly when at the load of the head the receiver had released everything published before; otherwise the call returns |
| `InprocPipeOutcomes.ClearedOnlyWhenDrained` | omq-libzmq/src/inproc_bypass.rs:451-457 | after a release the receiver clears its event exactly when everything published has been passed |
| `InprocPipeSignal.SignalCanBeMissing` | omq-libzmq/src/inproc_bypass.rs:247-255 | on every ring that can hold two messages, a run ending with the receiver at rest, its event clear, the sender returned and a published message waiting: the comment's promise is only about the moment of the load |
| `InprocRing.RingProducer.WriteEntry` | omq-libzmq/src/inproc_bypass.rs:230-245 | the in-place copy of header and payload is the splice of the entry's image at the tail offset; the tail advances by the aligned size |
| `InprocRing.RingProducer.TryPush` | omq-libzmq/src/inproc_bypass.rs:180-227 | the in-place method has exactly the effect and result of TryPushResult on the old memory |
| `InprocRing.SoloIsTryPush` | omq-libzmq/src/inproc_bypass.rs:180-245 | an uninterrupted run of the sender's atomic steps ends with the result and memory of that function, in every state satisfying the invariant |
| `InprocRingConsumer.RingConsumer.TryPeek` | omq-libzmq/src/inproc_bypass.rs:262-313 | the in-place method has exactly the effect and result of TryPeekResult on the old cursors |
| `InprocRingConsumer.ReleaseAfterPeek` | omq-libzmq/src/inproc_bypass.rs:315-320 | releasing the length a peek showed publishes the head of the step system's release: the taken payloads become one more of those pushed, the ring stays sound, and the producer finds free everything up to the next record |
| `InprocRingConsumer.PeekFindsNext` | omq-libzmq/src/inproc_bypass.rs:262-313 | on every sound ring try_peek returns nothing exactly when nothing published is unread, otherwise a slice holding the payload that follows those already taken, and panics exactly on an empty payload that ends the buffer |
| `SendRingInvariant.StepKeepsInv` | bindings/go/send_ring.go:70-180 | every step of the Go thread, the native worker and the droppers keeps the send ring's invariant |
| `SendRingInvariant.RunKeepsInv` | bindings/go/native/src/lib.rs:806-902 | the invariant holds in every state of every run, with messages dropped in any order by any thread |
| `SendRingTheorems.SliceShowsBody` | bindings/go/native/src/lib.rs:819-827 | a message handed out by the worker still shows exactly the body that was sent under its descriptor |
| `SendRingTheorems.BorrowedBytesIntact` | bindings/go/send_ring.go:90-104 | in every state of every run each borrowed payload slice equals the body sent, until it is dropped |
| `SendRingTheorems.TakenInSendOrder` | bindings/go/native/src/lib.rs:852-861 | the worker takes descriptors one by one in send order and never an unpublished one |
| `SendRingTheorems.WorkerSeesPublished` | bindings/go/native/src/lib.rs:852-861 | a worker that has run out and looks again finds something exactly if more has been published |
| `SendRingTheorems.SendsOnlyGrow` | bindings/go/send_ring.go:70-106 | the list of accepted bodies only ever grows at its end |
| `SendRingTheorems.PendingBodiesDisjoint` | bindings/go/send_ring.go:152-170 | in every state of every run, open reservations included, the payload ranges of unreleased bodies are pairwise disjoint modulo the capacity |
| `SendRingTheorems.StoresMissPending` | bindings/go/send_ring.go:94-96 | no payload byte the Go side stores belongs to a pending body |
| `SendRingTheorems.ReclaimIsExact` | bindings/go/send_ring.go:172-180 | reclamation ends with payloadHead at the end of the last consumed body although it may read overwritten descriptors |
| `SendRingTheorems.StaleDescriptor` | bindings/go/send_ring.go:172-178 | a descriptor slot visited by a late reclamation holds the send one lap later once that one has been written |
| `SendRingReclaim.ReclaimVisitsStaleDescriptor` | bindings/go/send_ring.go:172-178 | for every number of slots and every payload ring that takes a byte, a run after which reclamation is about to visit such a slot, whose recorded end is not that of the body being reclaimed |
| `SendRingTheorems.HalfCapacitySuffices` | bindings/go/send_ring.go:152-170 | an empty reclaimed payload ring accepts every body of at most half the capacity at every offset |
| `SendRingTheorems.MoreThanHalfRefusedSomewhere` | bindings/go/send_ring.go:152-170 | for every larger body there is an offset at which the empty ring refuses it |
| `SendRingTheorems.SlotsFreedInOrder` | bindings/go/native/src/lib.rs:829-842 | in every run slots are freed in order: no held slot is behind the head, and with no releaser active the head stands at a held slot or has caught up |
| `SendRingTheorems.FullExactly` | bindings/go/send_ring.go:144-150 | the descriptor ring reports full exactly when as many sends as it has slots are not yet freed |
| `GoSendRing.GoRing.DescIsFull` | bindings/go/send_ring.go:144-150 | the cached head is refreshed exactly when the ring looks full, and the answer is about the refreshed head |
| `GoSendRing.GoRing.ReserveBytes` | bindings/go/send_ring.go:152-170 | the in-place reservation agrees with ReservePayload of the step system, result and fields |
| `GoSendRing.GoRing.ReclaimConsumed` | bindings/go/send_ring.go:172-180 | the in-place loop agrees with the recursive reclamation of the step system |
| `GoSendRing.GoRing.TrySend` | bindings/go/send_ring.go:80-105 | the in-place method has exactly the effect and result of TrySendResult on the old arrays and fields |
| `GoSendRing.SoloIsTrySend` | bindings/go/send_ring.go:70-106 | an uninterrupted run of the Go thread's atomic steps ends with the result and memory of that function |
| `SendRingOutcomes.RefusedExactly` | bindings/go/send_ring.go:86-93 | the first refused reservation is never final; after reclaiming, the send gives up if and only if the body, padding included, would end more than a ring beyond everything released at that step |
| `SendRingOutcomes.AgainOnlyWithoutRoom` | bindings/go/send_ring.go:86-93 | the same on the steps of every run |
| `SendRingOutcomes.AcceptedExactly` | bindings/go/send_ring.go:70-106 | an uninterrupted trySend on an open ring is accepted if and only if a slot is free and the body has room behind everything released, whatever has been reclaimed; a closed ring gives the error |
| `SendRingOutcomes.HalfAcceptedWhenReleased` | bindings/go/send_ring.go:70-106 | once everything sent is released every body of at most half the payload ring is accepted |
| `SendRingOutcomes.TrySendMeans` | bindings/go/send_ring.go:70-106 | in every run, from a trySend to its return: everything sent is published; it was accepted if and only if exactly this body was sent; not handled only for bodies as long as the ring, with everything released; an error means closed, and a call on a closed ring sends nothing |
| `SendRingOutcomes.DrainedMeans` | bindings/go/send_ring.go:121-142 | a drain ends if and only if everything sent has been released at its load of the head, with an error if it then finds the ring closed, and otherwise looks again |
| `SendRingOutcomes.ClosedStays` | bindings/go/native/src/lib.rs:806-902 | in every run a ring once closed stays closed |
| `Message.IsEmptyPayload` | omq-proto/src/message.rs:119-121 | the test for the empty form decides whether there are no bytes |
| `Message.PayloadFromSlice` | omq-proto/src/message.rs:94-100 | the inline or heap payload holds the bytes it was made from |
| `Message.SinglePart` | omq-proto/src/message.rs:352-370 | a message of one part, whatever its storage form |
| `Message.Multipart` | omq-proto/src/message.rs:373-401 | a message of exactly the given parts |
| `Message.FromPayloads` | omq-proto/src/message.rs:987-997 | the smallest form for the given payloads stands for exactly those parts |
| `Message.Len` | omq-proto/src/message.rs:482-499 | for all nine forms, the number of parts |
| `Message.IsEmptyMessage` | omq-proto/src/message.rs:502-507 | for all valid forms, whether the part list is empty |
| `Message.ByteLen` | omq-proto/src/message.rs:510-521 | for all nine forms, the total length of the parts |
| `Message.Get` | omq-proto/src/message.rs:1106-1142 | for all nine forms, the part at an index, or nothing exactly past the end |
| `Message.IterSlices` | omq-proto/src/message.rs:856-885 | for all nine forms, the visitor sees the parts in order |
| `Message.PartsPayload` | omq-proto/src/message.rs:826-853 | for all nine forms, payloads that stand for the part list |
| `Message.Equal` | omq-proto/src/message.rs:1076-1088 | message equality is equality of part lists, across forms |
| `Message.IsMultipartExactly` | omq-proto/src/message.rs:534-544 | is_multipart answers more-than-one-part exactly outside heap lists of one element; on those it is wrong |
| `Message.PrefixedEmptyIsLone` | omq-proto/src/message.rs:707-741 | prefixing an empty message builds such a list: one part, and is_multipart says true |
| `Message.PrependEmptyDelimiter` | omq-proto/src/message.rs:932-984 | adds one empty part except to the two compact delimited forms, whose part list is unchanged; keeps the routing ID |
| `Message.DelimiterAddedExactly` | omq-proto/src/message.rs:932-984 | the delimiter is added if and only if the message is not in a compact delimited form |
| `Message.SecondDelimiterLost` | omq-proto/src/message.rs:940-951 | delimiting any single-part message twice yields one delimiter |
| `Message.WithPrefix` | omq-proto/src/message.rs:707-741 | a non-empty prefix becomes the first part and the rest is unchanged, for all nine forms; an empty prefix prepends the delimiter |
| `Message.WithRepEnvelope` | omq-proto/src/message.rs:746-776 | envelope, empty delimiter, body parts, for all nine forms |
| `Message.WithRoutingId` | omq-proto/src/message.rs:413-443 | attaches the ID, replacing an earlier one, and changes no part |
| `Message.TakeUndoesAttach` | omq-proto/src/message.rs:413-478 | taking the ID gives back the ID attached, the parts and no ID left, for all nine forms |
| `Message.MessageCell.TakeRoutingId` | omq-proto/src/message.rs:459-478 | the in-place operation returns the ID and leaves the unrouted form |
| `Message.MessageCell.PopFront` | omq-proto/src/message.rs:658-702 | returns the first part and leaves the other parts, for all nine forms; the routing ID goes |
| `Message.MessageCell.PushPart` | omq-proto/src/message.rs:782-824 | appends one part and keeps the routing ID, for all nine forms |
| `FrameCodec.EncodeMessageFlat` | omq-proto/src/proto/frame.rs:179-187 | the loop over a message's slices appends the wire form of its parts, and the bytes appended are the ZMTP form as stated byte by byte |
| `FrameCodec.HeaderBytes` | omq-proto/src/proto/frame.rs:98-106 | a header in numbers: 1 for MORE, 4 for COMMAND, 2 for a long size; one size byte up to 255, otherwise eight from the most significant on |
| `FrameCodec.EncodedIsWireForm` | omq-proto/src/proto/frame.rs:179-187 | every encoding is, byte by byte, the ZMTP form of its parts, defined without the encoder |
| `FrameCodec.HeaderVerdict` | omq-proto/src/proto/frame.rs:224-263 | the reader's verdict on every first byte: flags from 8 on, MORE on a command and sizes above the largest allocation are violations; all others give flags, header length and size |
| `FrameCodec.EncodeMessagePrefixedFlat` | omq-proto/src/proto/frame.rs:190-199 | the same with a prefix inside every frame |
| `FrameCodec.HeaderReadsBack` | omq-proto/src/proto/frame.rs:98-106 | a frame header reads back: flags, header length, payload length, short and long form |
| `FrameCodec.FrameReadsBack` | omq-proto/src/proto/frame.rs:272-289 | decoding an encoded frame gives the frame and leaves exactly the bytes behind it |
| `FrameCodec.PrefixNeedsMore` | omq-proto/src/proto/frame.rs:224-289 | on every proper prefix of a frame the decoder asks for more, without a verdict |
| `FrameCodec.VerdictIsStable` | omq-proto/src/proto/frame.rs:224-289 | a decoded frame or a violation does not change when more bytes arrive |
| `FrameCodec.MessageReadsBack` | omq-proto/src/proto/frame.rs:179-289 | reading the wire form of any non-empty part list gives the parts and stops at the message's end |
| `FrameCodec.CommandIsNoPart` | omq-proto/src/proto/frame.rs:272-289 | a command frame is never taken as a part of a message |
| `FrameCodec.EncodingUnambiguous` | omq-proto/src/proto/frame.rs:179-187 | no message's wire form is a prefix of another's: equal streams have equal messages |
| `FrameCodec.StreamReadsBack` | omq-proto/src/proto/frame.rs:179-289 | a stream of messages decodes to the same messages with the same boundaries |
| `FrameBuffer.FrameBuffer.CommitArenaRange` | omq-proto/src/frame_buffer.rs:163-174 | the pending range becomes the last entry, if it has bytes, and no byte of the stream changes |
| `FrameBuffer.FrameBuffer.FrameInline` | omq-proto/src/frame_buffer.rs:177-182 | appends the message's wire form to the stream, in the arena |
| `FrameBuffer.FrameBuffer.FrameGather` | omq-proto/src/frame_buffer.rs:184-202 | appends the same bytes without copying bodies, in one chunk per header and per non-empty body |
| `FrameBuffer.FrameBuffer.Frame` | omq-proto/src/frame_buffer.rs:224-230 | appends the message's wire form on both sides of the threshold |
| `FrameBuffer.FrameBuffer.FrameRep` | omq-proto/src/frame_buffer.rs:235-262 | appends the wire form of the empty delimiter followed by the body's parts |
| `FrameBuffer.FrameBuffer.FramePrefixedInline` | omq-proto/src/frame_buffer.rs:216-221 | appends the wire form of the parts with the prefix inside every frame |
| `FrameBuffer.FrameBuffer.FramePrefixed` | omq-proto/src/frame_buffer.rs:264-296 | the same on both sides of the threshold; 32-bit offsets matter on the gathering side only |
| `FrameBuffer.FrameBuffer.PushRaw` | omq-proto/src/frame_buffer.rs:298-315 | appends the chunks to the stream and adds as many protected entries as asked |
| `FrameBuffer.FrameBuffer.PushPreFramed` | omq-proto/src/frame_buffer.rs:148-152 | appends the given bytes to the stream |
| `FrameBuffer.FrameBuffer.PopFrontEntry` | omq-proto/src/frame_buffer.rs:317-326 | pops if and only if there is an entry once the pending range is one; exactly the first goes, and exactly its bytes leave the front of the stream |
| `FrameBuffer.FrameBuffer.PopOldestUnprotectedEntry` | omq-proto/src/frame_buffer.rs:328-341 | pops if and only if some entry is unprotected; exactly the first such entry goes, exactly its bytes are cut out of the stream, and every other entry keeps its place |
| `FrameBuffer.FrameBuffer.Drain` | omq-proto/src/frame_buffer.rs:361-422 | chunks handed out followed by what stays are the old stream, for every chunk limit; entries left behind no longer refer to the arena; the protected count is exact |
| `FrameBuffer.FrameBuffer.PutBackUnwritten` | omq-proto/src/frame_buffer.rs:424-447 | after a partial write the stream is the unwritten rest of the chunks and then what was in the buffer |
| `FrameBuffer.FrameBuffer.AdvanceArena` | omq-proto/src/frame_buffer.rs:124-134 | drops exactly the written bytes of an arena-only buffer |
| `FrameBuffer.FrameBuffer.TakeArenaBytes` | omq-proto/src/frame_buffer.rs:140-146 | moves the whole stream of an arena-only buffer out |
| `FrameBufferRuns.Run` | omq-proto/src/frame_buffer.rs:163-447 | for every sequence of framing calls, drains and partial writes: bytes on the wire, in flight and in the buffer are the concatenated encodings in call order, independent of threshold and chunk limit; it stops early only where a committed range would outgrow 32-bit offsets |
| `FrameBufferRuns.EmittedIsStream` | omq-proto/src/frame_buffer.rs:177-296 | what a sequence of framing calls emits is the stream of the part lists framed |
| `FrameBufferRuns.Flush` | omq-proto/src/frame_buffer.rs:361-422 | draining in chunks of any size until nothing is left puts exactly the rest of the stream on the wire and ends |
| `FrameBufferRuns.Deliver` | omq-proto/src/frame_buffer.rs:163-447 | from an empty buffer, after any framing calls, drains and partial writes and a final flush, the wire decodes to exactly the framed part lists with their boundaries, unless 32-bit offsets ran out |
| `FanOut.EncodedMessageLen` | omq-proto/src/fan_out_frame.rs:43-50 | the saturating accumulation is the saturated length of the wire form |
| `FanOut.EncodeFanOutMessage` | omq-proto/src/fan_out_frame.rs:30-41 | from an empty buffer the stream is the wire form, held in the arena or in chunks exactly as the budget and threshold say |
| `FanOut.FinishFanOutFrame` | omq-proto/src/fan_out_frame.rs:58-71 | the slice is handed out exactly for an arena-only buffer whose product with the targets, wrapped at 64 bits, fits the budget; either form is the stream, and chunks are complete exactly when the entries number at most 1024 |
| `FanOut.BuildFanOutFrame` | omq-proto/src/fan_out_frame.rs:18-27 | for every budget up to the largest word: the arena form is chosen if and only if the message has parts, is below the threshold and encoded length times targets fits the budget or the budget is the largest word; it equals the wire form; the chunk form equals it if and only if it takes at most 1024 chunks, and always up to 512 parts |
| `FanOut.PartsBoundChunks` | omq-proto/src/frame_buffer.rs:184-202 | a message takes between one and two chunks per part, and exactly two per part if none is empty |
| `FanOut.LongMessageIsCutShort` | omq-proto/src/fan_out_frame.rs:18-71 | at every threshold, number of targets and budget: a message of 513 non-empty parts not below the threshold is handed out as chunks that are not its encoding (at the routing code's threshold of 4096, parts of eight bytes) |
| `TypeState.SplitFindsEnvelope` | omq-proto/src/type_state.rs:137-150 | the envelope ends at the first empty part, whatever empty parts the body contains |
| `TypeState.SendStepMeans` | omq-proto/src/type_state.rs:51-96 | a send is refused exactly for a wrong part count, a REQ that awaits a reply or a REP without a saved envelope; states the parts sent and the new state; a refusal changes nothing |
| `TypeState.RecvStepMeans` | omq-proto/src/type_state.rs:117-153 | REQ accepts exactly awaited delimited replies; REP accepts exactly requests with a delimiter and saves what precedes it; DISH exactly two parts; states body and new state |
| `TypeState.TypeState.PreSend` | omq-proto/src/type_state.rs:51-96 | the in-place method has exactly the result and new state of the send step |
| `TypeState.TypeState.PostRecvReqDirect` | omq-proto/src/type_state.rs:104-112 | accepts exactly messages that start with the delimiter, awaited or not, and strips it |
| `TypeState.TypeState.PostRecv` | omq-proto/src/type_state.rs:117-153 | the in-place method has exactly the result and new state of the receive step |
| `TypeState.TypeState.OnPeerDisconnected` | omq-proto/src/type_state.rs:44-47 | clears both sides' state |
| `TypeState.RequestArrives` | omq-proto/src/type_state.rs:77-150 | over any number of hops with non-empty identities REP accepts the request, sees exactly its parts (without the first, if it was in a compact delimited form) and saves the identities |
| `TypeState.ReplyReturns` | omq-proto/src/type_state.rs:86-131 | the reply carries the saved identities, each hop takes its own, and REQ sees exactly the reply's parts |
| `TypeState.Exchange` | omq-proto/src/type_state.rs:51-153 | request there and reply back, both as above, and both ends are ready for the next |
| `TypeState.Drive` | omq-proto/src/type_state.rs:44-153 | driving the object with any sequence of sends, receives and disconnects gives exactly the state, the sent and the shown part lists of the fold over the steps |
| `TypeState.ReqAlternates` | omq-proto/src/type_state.rs:77-131 | in every run of a REQ socket sends minus accepted replies is one while a reply is awaited and zero otherwise, plus at most one per disconnect |
| `TypeState.RepAnswersRequests` | omq-proto/src/type_state.rs:86-150 | in every run of a REP socket replies plus the request still to be answered never outnumber the requests accepted |
| `TypeState.SecondRequestReplacesFirst` | omq-proto/src/type_state.rs:137-150 | REP accepts a second request before answering the first, and the reply then carries the second envelope: the module comment's strict alternation is not enforced on this side |
| `ProxyLedger.Conservation` | omq-libzmq/src/proxy.rs:187-278 | messages read at the frontend are those written to the backend followed by the at most one in hand, and the other way round, for every trace whose ledger is in order |
| `ProxyLedger.QuietMeansPaused` | omq-libzmq/src/proxy.rs:138-158 | no receive or send happens after a PAUSE that is not followed by a RESUME |
| `ProxyLedger.NoStarvation` | omq-libzmq/src/proxy.rs:138-158 | in the trace of a run: if one direction makes progress twice with no progress of the other in between, then right before the second time the trace holds an attempt of the other direction that could not move, and after it only moves of this direction, which start with a message read or passed on and go on for a burst or until it cannot move |
| `ProxyLedger.IdleTurnTriedAll` | omq-libzmq/src/proxy.rs:138-158 | an active turn without progress found nothing to read or a full target in every direction that is on |
| `Proxy.ProxyCtx.constructor` | omq-libzmq/src/proxy.rs:78-123 | a direction is on if and only if its source type can be read and its target type written, and from backend to frontend only if they are two sockets |
| `Proxy.ProxyCtx.TryHandleControl` | omq-libzmq/src/proxy.rs:284-326 | one look at the control socket if there is one; action and mode are functions of what was found: PAUSE and RESUME set the mode, TERMINATE and KILL end the proxy, a failure aborts, anything else does nothing |
| `Proxy.ProxyCtx.FlushPendingDirection` | omq-libzmq/src/proxy.rs:187-210 | passes on the pending message of an enabled direction or leaves it pending, and otherwise does no I/O |
| `Proxy.ProxyCtx.TryForwardAvailable` | omq-libzmq/src/proxy.rs:212-236 | reads only when nothing is pending; not moving means disabled, pending or no input, with exactly that I/O |
| `Proxy.ProxyCtx.ForwardBurst` | omq-libzmq/src/proxy.rs:238-263 | sends messages of one direction in the order read, up to 64, stopping earlier only without input or at the first refused one, which becomes pending |
| `Proxy.ProxyCtx.AttemptBoth` | omq-libzmq/src/proxy.rs:138-158 | the preferred direction is attempted first and the other only if that could not move; whichever moved makes the other preferred |
| `Proxy.ProxyCtx.OneTurn` | omq-libzmq/src/proxy.rs:131-182 | each pass appends exactly its turn to the trace; it is a fair turn and keeps the proxy consistent, or ends in an event that stops the proxy |
| `Proxy.ProxyCtx.Run` | omq-libzmq/src/proxy.rs:125-184 | for every number of passes and all socket answers the trace is the I/O of one turn per pass, fair with bursts of 64, chained, and active exactly as the commands so far say; no I/O in a direction that is off, and an idle active turn tried every direction that is on; the proxy is consistent at every loop head and stops early only at the first stop event |
| `Proxy.ConsistencyMeans` | omq-libzmq/src/proxy.rs:125-278 | consistency means conservation in both directions after every I/O event, no traffic while paused, and the capture socket, if there is one, offered every forwarded message in order |
| `ContextTerm.StepKeepsInv` | omq-libzmq/src/context.rs:140-169 | both counters always equal the number of open sockets and outstanding lingers, and what the waiter has seen gone stays gone, at every step of every thread |
| `ContextTerm.TermWaitsForAll` | omq-libzmq/src/context.rs:237-262 | in every run, once term has passed its wait no linger is outstanding and only a socket whose creation straddled the shutdown can be open |
| `ContextTerm.StraddlerOutlivesTerm` | omq-libzmq/src/socket.rs:303-370 | a concrete run in which such a socket is open after term has passed |
| `ContextHang.NeverSleeps` | omq-libzmq/src/context.rs:237-262 | if at the call nothing is open, opening, closing or lingering, the waiter never sleeps in any continuation |
| `ContextHang.BusyHangs` | omq-libzmq/src/context.rs:237-262 | from every state with something open, opening, closing or lingering and term called or about to load, some continuation sleeps for ever with everything closed |
| `ContextHang.HangsExactlyWhenBusy` | omq-libzmq/src/context.rs:151-262 | in every run after the shutdown signal, with term not yet past its first load: the context can hang if and only if some socket is open, opening or closing or some linger is outstanding |
| `ContextTerm.SleepsOnlyIfMissed` | omq-libzmq/src/context.rs:151-169 | in every run, a waiter asleep with nothing left to wait for and no notification on its way has missed one between its check and its sleep |
| `ContextTerm.TermCanSleepForever` | omq-libzmq/src/context.rs:249-262 | a concrete run in which the last close notifies in that gap and no step but another shutdown call is possible afterwards |
| `ContextTerm.GoneStaysGone` | omq-libzmq/src/socket.rs:516-541 | because the linger count is raised before the socket count is lowered, no linger can start once the waiter has seen no socket |
| `ContextTerm.LingerOverlaps` | omq-libzmq/src/socket.rs:521-539 | in every run, a close that decides to linger is counted as lingering before it lowers the socket count |
| `ContextTerm.ShutdownWakes` | omq-libzmq/src/context.rs:170-192 | shutting down marks the context and makes a sleeping waiter look again |
| `MultipartFrames.Sender.SendBytes` | omq-libzmq/src/send_recv.rs:325-425 | exactly when a send succeeds, what it buffers or submits, and that a message refused at submission takes the frames buffered before it along |
| `MultipartFrames.RefusedBecause` | omq-libzmq/src/send_recv.rs:325-425 | the reason of every refusal, as an equivalence: too big, bypass full, no route, or not submitted |
| `MultipartFrames.SendReplyMeans` | omq-libzmq/src/send_recv.rs:427-448 | a SERVER reply is accepted if and only if it fits, has no SNDMORE, has a route and is submitted; otherwise nothing changes |
| `MultipartFrames.Sender.SendMessage` | omq-libzmq/src/send_recv.rs:427-448 | a SERVER reply goes out alone with its routing ID, never with SNDMORE, and does not touch the buffered frames |
| `MultipartFrames.SendsAreConserved` | omq-libzmq/src/send_recv.rs:365-425 | in every run of sends, failures included and with a bypass adopted or dropped between any two, the frames accepted are in call order those of the messages handed over, those lost with a refused message, and those still buffered |
| `MultipartFrames.SendAll` | omq-libzmq/src/send_recv.rs:365-425 | the object driven by any calls has exactly the outbox and the one result per call of that run |
| `MultipartFrames.RetrySendsTailAlone` | omq-libzmq/src/send_recv.rs:414-424 | retrying the last frame of a refused message sends that frame as a message of its own |
| `MultipartFrames.Receiver.Decompose` | omq-libzmq/src/send_recv.rs:1122-1151 | the first visible part is handed out and the others are queued in order, with the flag set exactly when there are some |
| `MultipartFrames.VisibleMeans` | omq-libzmq/src/send_recv.rs:1086-1098 | DISH hides the group and REQ the delimiter of messages of two or more parts; every other type shows all parts |
| `MultipartFrames.CallTakes` | omq-libzmq/src/send_recv.rs:734-806 | a call takes queued frames first, then the regular queue, then an installed bypass; only a call that may wait and found nothing sees later arrivals, and a non-blocking one then changes nothing |
| `MultipartFrames.WakeTakes` | omq-libzmq/src/send_recv.rs:813-844 | a waiting call takes a single frame of the bypass before a message, and reports a closed bypass before a message |
| `MultipartFrames.Receiver.Recv` | omq-libzmq/src/send_recv.rs:734-845 | the in-place method has exactly the result and new queues of the receive function, and RCVMORE after it is the flag of the frame |
| `MultipartFrames.RunsAreOrderly` | omq-libzmq/src/send_recv.rs:734-934 | in every run of arrivals and calls, with a bypass adopted or dropped between any two looks: frames handed out and then queued are the frames of the messages taken, never interleaved, and the messages taken are a merge of the first messages and the first single frames that arrived, the queues holding exactly the others |
| `MultipartFrames.OneResultPerCall` | omq-libzmq/src/send_recv.rs:734-845 | every call adds one result, and one without a frame means that the queues in use are empty, but for the regular one if the peer was found gone |
| `MultipartFrames.GoneBeforeQueued` | omq-libzmq/src/send_recv.rs:813-844 | a waiting call that finds its bypass peer gone fails although a message has arrived on the regular path; the next call gets it |
| `MultipartFrames.RecvAll` | omq-libzmq/src/send_recv.rs:734-934 | the object goes through exactly that run |
| `MultipartFrames.AllPendingComeOut` | omq-libzmq/src/send_recv.rs:1107-1151 | receiving as often as there are frames hands out the frames of all queued messages in order with RCVMORE on all but the last of each |
| `MultipartFrames.RoundTrip` | omq-libzmq/src/send_recv.rs:403-424 | between types that change no parts (PAIR, PUSH, PUB, XPUB, DEALER to PAIR, PULL, SUB, XSUB, DEALER) every sequence of frames that ends a message is received as the same frames with RCVMORE where SNDMORE was set |
| `MsgOwnership.OneOwner` | omq-libzmq/src/msg.rs:340-373 | every block has at most one owning message |
| `MsgOwnership.NoLeak` | omq-libzmq/src/msg.rs:340-373 | a block is live if and only if some message owns it, and is released at most once |
| `MsgOwnership.ReinitLeaks` | omq-libzmq/src/msg.rs:224-257 | initialising a message that still owns memory loses that memory |
| `MsgOwnership.InitSizeMeans` | omq-libzmq/src/msg.rs:235-308 | a fresh malloc block owned by the message, nothing for a null of size zero, or no change when memory runs out |
| `MsgOwnership.InitDataMeans` | omq-libzmq/src/msg.rs:260-286 | the buffer is shown as is, and owned exactly if it came with a free function |
| `MsgOwnership.CloseReleases` | omq-libzmq/src/msg.rs:340-373 | closing releases exactly the block the message owns, once, changes no other, and leaves the message empty with no MORE flag, no group and routing ID 0 |
| `MsgOwnership.MoveMeans` | omq-libzmq/src/msg.rs:376-392 | the destination's memory is released, the contents and their ownership move, the source is left empty; moving to itself changes nothing |
| `MsgOwnership.CopyMeans` | omq-libzmq/src/msg.rs:395-472 | the copy holds equal bytes and metadata in memory of its own, marked shared exactly for copies of handed-over buffers or of 64 bytes and more, and the source is untouched; if memory runs out the destination is left empty |
| `MsgOwnership.SendMeans` | omq-libzmq/src/msg.rs:593-647 | on plain and SERVER sockets: a failed send leaves all messages and memory unchanged but may leave the group buffered in the socket; a successful one closes the message |
| `MsgOwnership.ReceiveMeans` | omq-libzmq/src/msg.rs:691-776 | the frame's bytes, MORE flag and routing ID arrive in memory of the message's own, boxed exactly above 128 bytes; without a frame nothing changes |
| `MsgOwnership.PerformKeeps` | omq-libzmq/src/msg.rs:224-776 | every operation of a disciplined application keeps ownership sound |
| `MsgOwnership.WholeLife` | omq-libzmq/src/msg.rs:224-776 | over every disciplined run that ends by closing all messages in any order, the blocks are exactly those allocated or handed over, and each the library became responsible for has been released exactly once |
| `MsgOwnership.DoAll` | omq-libzmq/src/msg.rs:224-776 | the object driven by any operations has exactly the heap and outbox of that run |
| `MsgOwnership.World.MsgInit` | omq-libzmq/src/msg.rs:224-232 | an initialised message is empty with no MORE flag, no group and routing ID 0 |
| `MsgOwnership.World.MsgInitSize` | omq-libzmq/src/msg.rs:235-308 | the in-place operation has the result of InitSize and takes the heap exactly where InitSize does |
| `MsgOwnership.World.MsgInitData` | omq-libzmq/src/msg.rs:260-286 | the in-place operation takes the heap exactly where InitData does |
| `MsgOwnership.World.MsgMove` | omq-libzmq/src/msg.rs:376-392 | the in-place operation has the result of Move and takes the heap exactly where Move does |
| `MsgOwnership.World.MsgCopy` | omq-libzmq/src/msg.rs:395-472 | the in-place operation has the result of Copy and takes the heap exactly where Copy does |
| `MsgOwnership.World.MsgSend` | omq-libzmq/src/msg.rs:593-647 | the in-place operation over a socket object has the result of Send and takes heap and outbox exactly where Send does |
| `MsgOwnership.World.MsgRecv` | omq-libzmq/src/msg.rs:691-776 | the in-place operation has the result of Receive and takes the heap exactly where Receive does |
| `Endpoint.PortReadsBack` | omq-proto/src/endpoint.rs:395-401 | printed ports parse back |
| `Endpoint.DigitTexts` | omq-proto/src/endpoint.rs:395-401 | ports are decimal text up to 65535 with an optional plus sign |
| `Endpoint.NoOtherPorts` | omq-proto/src/endpoint.rs:395-401 | any other character makes the port invalid |
| `Endpoint.NameTexts` | omq-proto/src/endpoint.rs:406-426 | a host that is no IP address is a name of ASCII letters, digits, dots and hyphens, or invalid |
| `Endpoint.StarTexts` | omq-proto/src/endpoint.rs:391-409 | `*` and the empty text are the wildcard host, and `*` is port 0 |
| `Endpoint.SchemeTexts` | omq-proto/src/endpoint.rs:120-159 | the transport named by each of the nine schemes before the first separator; any other is unsupported |
| `Endpoint.IpcTexts` | omq-proto/src/endpoint.rs:428-444 | names after `@` are abstract, others are paths, empty ones invalid |
| `Endpoint.UdpTexts` | omq-proto/src/endpoint.rs:527-534 | what stands before the first `@` is the group |
| `Endpoint.WebTexts` | omq-proto/src/endpoint.rs:499-514 | the path starts at the first slash and is the root without one; line breaks are invalid |
| `Endpoint.RoleTexts` | omq-proto/src/endpoint.rs:348-362 | `@` asks to bind, `>` to connect, anything else leaves it open |
| `Endpoint.FaithfulTextExists` | omq-proto/src/endpoint.rs:374-426 | some address text meets the hypothesis of the round trips, with 32-bit and 128-bit addresses |
| `Endpoint.AddressReadsBack` | omq-proto/src/endpoint.rs:374-426 | every valid host and port prints to text that parses back to it: wildcard, names, plain and bracketed IPs |
| `Endpoint.ParsedEndpointValid` | omq-proto/src/endpoint.rs:120-159 | every endpoint that parses satisfies a validity predicate stated without parsing |
| `Endpoint.EndpointReadsBack` | omq-proto/src/endpoint.rs:161-183 | printing any valid endpoint and parsing the text gives the endpoint, for all transports, UDP groups, abstract IPC names and WebSocket paths |
| `Endpoint.ParsePrintParse` | omq-proto/src/endpoint.rs:120-183 | for every text that parses, printing and parsing again gives the same endpoint |
| `Endpoint.ParsePrintParseSpec` | omq-proto/src/endpoint.rs:348-372 | the same for endpoint specifications with bind and connect prefixes |

## Left out

- ReclaimIsExact: stated while fewer than 2^64 bodies have been consumed since the last reclamation, where the wrapped comparison of the loop is meaningful.
- RefusedExactly: likewise, and so AgainOnlyWithoutRoom, AcceptedExactly and HalfAcceptedWhenReleased.
- AgainOnlyWithoutRoom: see RefusedExactly.
- AcceptedExactly: see RefusedExactly.
- HalfAcceptedWhenReleased: see RefusedExactly.
- NoLostWakeup: for payloads shorter than the sentinel length, since a longer one is refused for ever whatever the space.
- Run: a run of the frame buffer stops where a committed arena range would outgrow its 32-bit offsets, which the source asserts in debug builds only.
- Deliver: likewise.
- Overflow checks of debug builds: the fan-out's product of length and targets wraps, as in release builds.
- TermCanSleepForever: the standard library's permission to wake spuriously is not modelled.
- Weak memory orderings: all steps are sequentially consistent.
- Liveness: that a blocked sender, a terminating context or the proxy loop eventually returns is not claimed beyond the steps stated.
- The order between messages on the bypass ring and on the regular path, which the source does not promise.
- The operating-system side of notifications, polling and timers: a signal is a flag or an arrival.
- The internals of the lock-free queues behind the regular receive path: one FIFO of messages stands for the two queues of a socket.
- Arena capacity hints, WebSocket framing and masking in the frame buffer, and the shared-chunk variant of pushing raw chunks.
- The `Bytes` reference counts below a boxed byte string: each box is one block.
- Truncating copies into the caller's buffer in `zmq_recv`, option tables, the subscription trie, XSUB interception, security mechanisms and compression.
- The text form of IP addresses: a parameter assumed to read back within the address widths and to use the usual characters.
- Windows pipe names and builds without the compression or WebSocket features.
- Acknowledgements on the proxy's control socket and the proxy's waiting between turns.
- `part_slice` and `part_bytes`, whose bodies repeat `get`, and the part iterator built on them.
