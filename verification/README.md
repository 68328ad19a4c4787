# audiowire: the ring buffer and the audio paths built on it

audiowire carries audio from a capture device to a playback device over a
network. Between each device callback and the network loop lies a
power-of-two ring buffer shared by two threads without a lock. This project
models that ring, the callbacks and loops around it, and the reassembly and
framing of what crosses the network, and proves what they do.

## How it is organised

| file | what it holds |
|---|---|
| Bits.dfy, Sequences.dfy, Circular.dfy, Memory.dfy | `size_t` with checked range, bitwise "and", powers of two; windows of a circular array; memcpy |
| DropQueue.dfy | the bounded drop-oldest byte queue that the ring is meant to be |
| RingBuffer.dfy, RingRuns.dfy | the ring as a class over a byte array, each operation proved against the queue, and whole runs of operations on it |
| Spsc.dfy | the ring under two threads: one program counter a side, one step per load, memcpy or index store |
| SpscSafety.dfy, SpscRuns.dfy | the invariant of every reachable state, and what it means over every interleaving |
| SpscAttempts.dfy, SpscSequential.dfy | what an attempt comes to when the other side rests, and the uninterrupted calls as calls on the queue |
| SpscFrames.dfy, SpscLimits.dfy | whole frames on the shared ring: exactly when, and runs at the limits |
| Pipeline.dfy, PipelineRuns.dfy | capture, record loop, byte pipe, playback loop and output as four threads over two rings: what no run does wrong, and runs that deliver everything |
| Streams.dfy | a stream: sizes, the PortAudio and PulseAudio callbacks, the calls made by the loops |
| Handlers.dfy | the record drain loops and the playback loops |
| Datagrams.dfy | exact reads put together from UDP datagrams, and the Opus loop's reads over them |
| Framing.dfy | the length-prefixed packets of the Opus streams |

Indices of the class are `size_t`, a number type with the range of the C type, so
every addition and subtraction in its methods is also proved not to wrap.
In the transition system the estimates wrap as C's do, because there the wrap
can happen.

## What was found

* The guards make the lock-free ring safe in every interleaving, provided no
  index wraps between the two loads of an estimate
  (`ringbuf_available` and `ringbuf_remaining` load the shared index once to
  compare and once to subtract). `SpscRuns.AvailableEstimate` and
  `SpscRuns.RemainingEstimate` give the exact condition, and
  `SpscLimits.StraddlingCanTear` a run in which one such wrap makes a guarded
  push store `head` and tears a frame.
* The audio path is not only safe: from any state in which a thread has what it
  waits for, it delivers, and `PipelineRuns.AudioArrives` gives, for any
  buffers, a run in which the output device is given exactly what the capture
  device offered.
* A push that goes round the end of the array publishes `tail` in the middle.
  A pop that runs at that moment and skips old bytes can start inside a frame.
  `SpscLimits.FramesWholeIff` gives the exact condition for a ring with a given
  max_bufsize: frames stay whole in every interleaving if and only if the
  capacity is a whole number of frames, or less than one frame above
  max_bufsize, where there is never anything to skip. For a stream the first
  holds exactly when the number of channels is a power of two
  (`Streams.ChannelsKeepFramesWhole`). One, two and four channels are safe for
  every max_bufsize (`SpscLimits.FramesWholeExactly`); three channels of S16
  are safe with a max_bufsize of 60 bytes, and tear with 36, 42 or 48.
* `ringbuf_pop_back_from` passes the count taken before its own skip to the
  copy. `RingBuffer.PopBackFrom` states both sides of the contract.
* `ringbuf_create(0)` and `ringbuf_create(1)` make an array of one byte, on
  which a push leaves `head` one past the end. No byte is ever stored there,
  and the ring behaves as a queue of capacity 0; the class covers this case.
* `UdpPeerReadHalf::read_exact` puts a short leftover in front and goes on at
  `buflen - srclen`, and copies a short datagram into a slice of the length
  that is still missing. `Datagrams.ConservedExactly` says exactly when it
  conserves bytes, and `Datagrams.OutcomeExactly` exactly when it succeeds,
  runs out of datagrams and panics: it panics on the first datagram that is shorter than what
  is missing and not half of it. The reads the handlers make are always served
  correctly: those that split each datagram exactly
  (`Datagrams.ReassemblesExactly`), and among them the Opus loop's, which learns
  the second length from the first read (`Datagrams.OpusOverDatagrams`).

## Model

| member | source | states |
|---|---|---|
| Bits.BitAndBits | libaudiowire/src/ringbuf.c:25 | each bit of the modelled `&` is the conjunction of the operands' bits |
| Bits.BitAndMask | libaudiowire/src/ringbuf.c:50-54 | `x & (capacity - 1)` is `x` modulo the capacity, for every power of two |
| RingBuffers.RingBuffer.constructor | libaudiowire/src/ringbuf.c:45-57 | the doubling loop ends at the least power of two not below the request without overflow; the usable space is the request, or one less when the request is a power of two; the ring is empty |
| RingBuffers.RingBuffer.Available | libaudiowire/src/ringbuf.c:65-69 | available and queued bytes add up to the mask, with no `size_t` underflow |
| RingBuffers.RingBuffer.Remaining | libaudiowire/src/ringbuf.c:71-75 | the number of queued bytes, with no `size_t` underflow |
| RingBuffers.RingBuffer.Write | libaudiowire/src/ringbuf.c:17-29 | the chunked copy appends the buffer to the queue in at most two passes |
| RingBuffers.RingBuffer.Read | libaudiowire/src/ringbuf.c:31-43 | the chunked copy hands out the elements that follow `head`, queued or not, in at most two passes |
| RingBuffers.RingBuffer.ReadOut | libaudiowire/src/ringbuf.c:31-43 | in queue terms: the oldest bytes when enough are queued, else `head` passes `tail` by exactly the shortfall |
| RingBuffers.RingBuffer.Push | libaudiowire/src/ringbuf.c:77-93 | on all three paths the queue becomes the newest `mask` bytes of queue and buffer together; `head` is not stored when the buffer fits |
| RingBuffers.RingBuffer.PopFront | libaudiowire/src/ringbuf.c:95-98 | removes and returns the oldest bytes, the rest stays in order |
| RingBuffers.RingBuffer.PopBack | libaudiowire/src/ringbuf.c:100-107 | returns the newest bytes in order and empties the queue |
| RingBuffers.RingBuffer.PopBackFrom | libaudiowire/src/ringbuf.c:109-116 | within the contract, the oldest of the newest `offset` bytes; outside it, more than `offset` bytes are handed out and `head` passes `tail` by exactly the excess |
| RingBuffers.RingBuffer.Flush | libaudiowire/src/ringbuf.c:118-120 | the queue is empty |
| DropQueue.PushDrops | libaudiowire/src/ringbuf.c:86-89 | a push keeps every byte if and only if there is room; else it leaves exactly `mask` bytes, a suffix of what was there and came |
| DropQueue.RemovalsSplit | libaudiowire/src/ringbuf.c:95-116 | each pop splits the queue into what it skips, hands out and leaves, at exactly the places its arguments say |
| DropQueue.PushesKeepNewest | libaudiowire/src/ringbuf.c:77-93 | after any run of pushes alone the queue is the newest `mask` bytes of all of them |
| DropQueue.Conservation | libaudiowire/src/ringbuf.c:77-120 | over any run of the queue's operations the bytes pushed are the bytes dropped and handed out, in that order, then the bytes queued |
| DropQueue.RunHandsOut | libaudiowire/src/ringbuf.c:95-120 | the log of a run records exactly what each operation hands out of the queue it meets |
| RingRuns.PerformAll | libaudiowire/src/ringbuf.c:77-120 | any run of pushes, the three pops (the third within its contract) and flushes on a new ring hands out and leaves what the run of the queue does, so bytes are conserved; after pushes alone the ring holds the newest `mask` bytes pushed |
| DropQueue.Staleness | libaudiowire/src/ringbuf.c:109-116 | a pop of at most max_bufsize bytes leaves at most the difference queued, and returns no byte that had max_bufsize newer ones behind it |
| SpscRuns.AvailableEstimate | libaudiowire/src/ringbuf.c:65-69 | with the consumer moving between the two loads the producer's estimate is exact if and only if `head` did not wrap past `tail` after the straight-line branch was chosen; a guard for which there is no room passes if and only if it did |
| SpscRuns.RemainingEstimate | libaudiowire/src/ringbuf.c:71-75 | the same for the consumer's estimate, `tail`, and a guard for which there are not enough bytes |
| SpscRuns.StraddlesExactly | libaudiowire/src/ringbuf.c:65-75 | in a reachable state the assumption on paired loads holds if and only if the estimate is the true room, or number of bytes |
| SpscSafety.StepPreserves | libaudiowire/src/ringbuf.c:17-116 | the invariant tying indices, counters, array, running copies and delivered blocks together survives every step of either side |
| SpscRuns.Safety | libaudiowire/src/portaudio.c:37-63 | over every interleaving of guarded pushes and pops: counters at most one array apart, indices equal to counters modulo the capacity, no discarding branch taken, bytes delivered in order, unchanged and at most once, and every request answered once, in order, with silence or with as many bytes as asked for |
| SpscRuns.ConsumerGuard | libaudiowire/src/portaudio.c:57-61 | a request is answered with silence if and only if too few bytes are queued when the guard looks |
| SpscRuns.ProducerGuard | libaudiowire/src/portaudio.c:44-46 | frames are refused if and only if there is too little room when the guard looks |
| SpscRuns.RaceFree | libaudiowire/src/ringbuf.c:24-38 | in every reachable state the elements being copied in hold no queued byte and those being copied out all do |
| SpscRuns.PeekThenRead | audiowire/src/handlers.rs:206-208 | a peek that finds the bytes is followed, in every interleaving, by a read of exactly that many, unless it is still under way |
| SpscRuns.PeekThenPush | audiowire/src/handlers.rs:116-118 | a peek that finds the room is followed, however the consumer runs before and both sides run after, by a write that loses nothing, publishes the whole buffer and never stores `head` |
| SpscRuns.ProducerKeepsHead | libaudiowire/src/ringbuf.c:77-93 | no step of a guarded push of whole frames stores `head` |
| SpscRuns.ConsumerKeepsTail | libaudiowire/src/ringbuf.c:95-116 | no step of a pop stores `tail`, the array or the stream |
| SpscRuns.FreshBlocks | libaudiowire/src/ringbuf.c:109-116 | however the producer runs during a pop, the block delivered starts within the newest max_bufsize bytes published when the pop measured the queue |
| SpscAttempts.PushRuns | libaudiowire/src/portaudio.c:44-46 | a guarded push that finds room and is not interrupted appends exactly its bytes |
| SpscAttempts.PushRefused | libaudiowire/src/portaudio.c:44-46 | a guarded push that finds no room ends with ring and stream as they were |
| SpscAttempts.PopRuns | libaudiowire/src/portaudio.c:57-59 | a guarded pop that finds its bytes and is not interrupted delivers exactly the oldest of the newest max_bufsize bytes and skips those before them |
| SpscAttempts.PopMisses | libaudiowire/src/portaudio.c:60-61 | a guarded pop that finds too few bytes ends with a silence and the ring as it was |
| SpscSequential.PushRefines | libaudiowire/src/ringbuf.c:77-93 | any push on the shared ring, guarded or not, that is not interrupted is the drop-oldest push, on all three branches |
| SpscSequential.PopRefines | libaudiowire/src/ringbuf.c:109-116 | any pop_back_from within its contract that is not interrupted hands out and leaves what the queue does |
| SpscFrames.FramesStayWhole | libaudiowire/src/portaudio.c:44-59 | when the capacity is a whole number of frames, or less than one frame above max_bufsize, every block delivered in any interleaving starts on a frame and holds whole frames |
| SpscLimits.FramesTear | libaudiowire/src/ringbuf.c:17-29 | for all other sizes a run, within all assumptions, that delivers a torn frame |
| SpscLimits.FramesWholeIff | libaudiowire/src/internals.h:44-50 | for a ring with a given max_bufsize, frames stay whole in every interleaving if and only if the capacity is a whole number of frames or less than one frame above max_bufsize |
| SpscLimits.FramesWholeExactly | libaudiowire/src/internals.h:31-50 | frames stay whole for every max_bufsize and every interleaving if and only if the frame size is a power of two |
| SpscLimits.StraddlingCanTear | libaudiowire/src/ringbuf.c:65-69 | one straddled wrap in an otherwise clean run makes a guarded push drop a byte and a later pop deliver a torn frame |
| Pipeline.AudioInOrder | audiowire/src/handlers.rs:106-122 | over every run of callbacks, record loop, pipe and playback loop, every byte the output gets is a byte the capture device offered, accepted or not by the guard, at strictly increasing positions |
| Pipeline.FramesInOrder | audiowire/src/handlers.rs:196-214 | the same frame by frame, when each ring's sizes keep frames whole: the output is whole frames of silence or whole frames the capture device offered, in the order offered, none twice, none torn |
| PipelineRuns.CaptureDelivers | libaudiowire/src/portaudio.c:44-46 | a capture callback that finds room: its frames count as offered, are accepted, and all are published |
| PipelineRuns.CaptureRefuses | libaudiowire/src/portaudio.c:44-46 | a capture callback that finds no room: its frames count as offered and nothing else changes |
| PipelineRuns.RecordDelivers | audiowire/src/handlers.rs:206-209 | a pass of the record loop that finds a buffer puts exactly the oldest of the newest max_bufsize bytes behind what is in the pipe |
| PipelineRuns.RecordWaits | audiowire/src/handlers.rs:206-209 | a pass that finds less than a buffer leaves ring and pipe as they were |
| PipelineRuns.PlaybackDelivers | audiowire/src/handlers.rs:115-119 | a pass of the playback loop that finds room and a buffer in the pipe takes exactly that buffer out and publishes it |
| PipelineRuns.PlaybackWaits | audiowire/src/handlers.rs:115-119 | a pass that finds no room leaves ring and pipe as they were |
| PipelineRuns.OutputDelivers | libaudiowire/src/portaudio.c:57-59 | an output callback that finds its bytes is given exactly the oldest of the newest max_bufsize |
| PipelineRuns.OutputSilent | libaudiowire/src/portaudio.c:60-61 | an output callback that finds too few is given silence and the ring stays |
| PipelineRuns.AudioArrives | audiowire/src/handlers.rs:106-214 | for any sequence of buffers there is a run, within all assumptions, in which the output is given exactly what the capture device offered, with nothing left in pipe or rings |
| Streams.FrameSize | libaudiowire/src/common.c:6-14 | eight times the size is the number of channels times the 16 or 32 bits the format is named after |
| Streams.FrameBufferSize | libaudiowire/src/internals.h:31-37 | eight times the size is the count times the channels times the bits of a sample; it is exactly `count` frames, and far below the `size_t` range |
| Streams.FrameIsPow2 | libaudiowire/src/common.c:6-14 | the frame size is a power of two if and only if the number of channels is |
| Streams.ChannelsKeepFramesWhole | libaudiowire/src/internals.h:44-50 | a stream delivers whole frames in every interleaving if and only if the number of channels is a power of two or the capacity is less than one frame above max_bufsize |
| Streams.DroppingTearsFrames | audiowire/src/bin/loopback.rs:51-54 | a push that drops anything leaves a queue that is not a whole number of frames |
| Streams.PopAligned | libaudiowire/src/common.c:24-26 | a pop of whole frames skips, returns and leaves whole frames |
| Streams.AwStream.constructor | libaudiowire/src/internals.h:44-56 | the ring is empty and its capacity is the least power of two not below max_bufsize |
| Streams.AwStream.RecordPeek | libaudiowire/src/common.c:20-22 | the number of queued bytes |
| Streams.AwStream.RecordRead | libaudiowire/src/common.c:24-26 | within the contract, the oldest of the newest max_bufsize bytes; outside it, those and then bytes not queued, and by how much the queue is overrun |
| Streams.AwStream.PlaybackPeek | libaudiowire/src/common.c:28-30 | the room left |
| Streams.AwStream.PlaybackWrite | libaudiowire/src/common.c:32-34 | the drop-oldest push |
| Streams.AwStream.OnStreamRead | libaudiowire/src/portaudio.c:37-48 | the frames are taken whole or not at all, whole frames stay whole, and `head` is not stored |
| Streams.AwStream.OnStreamWrite | libaudiowire/src/portaudio.c:50-63 | the output is filled by such a pop, or with silence and the queue unchanged; within the contract whole frames stay whole |
| Streams.AwStream.OnStreamReadable | libaudiowire/src/pulseaudio.c:66-85 | the fragments are offered one by one, each taken whole or not at all, up to the first device failure; holes push nothing, and an empty peek is passed over without a drop |
| Streams.OffersExtend | libaudiowire/src/pulseaudio.c:70-80 | the rounds of the callback only append, never beyond the limit, and whole frames stay whole |
| Streams.OffersSucceed | libaudiowire/src/pulseaudio.c:71-79 | the callback ends without an error if and only if no peek fails and no drop of something non-empty does |
| Streams.OffersGoOn | libaudiowire/src/pulseaudio.c:70-83 | rounds go on from where the ones before left the queue, and nothing happens after a failure |
| Streams.OffersSnoc | libaudiowire/src/pulseaudio.c:76-77 | the next fragment is appended whole when it fits, else lost whole |
| Streams.OffersAllFit | libaudiowire/src/pulseaudio.c:70-80 | when there is room for all fragments all are queued, in order |
| Streams.AwStream.OnStreamWritable | libaudiowire/src/pulseaudio.c:96-99 | as the PortAudio callback, for any length granted |
| Handlers.DrainRaw | audiowire/src/handlers.rs:206-210 | the drain ends, has sent the most whole buffers of the newest max_bufsize bytes, oldest first, and leaves the remainder |
| Handlers.PlayRaw | audiowire/src/handlers.rs:115-120 | whole buffers move from connection to ring in order, none dropped, until there is no room or the stream ends |
| Handlers.DrainOpus | audiowire/src/handlers.rs:233-241 | the whole buffers of the newest max_bufsize bytes are encoded in order by the encoder as earlier drains left it, each packet sent behind its length, up to the first encoder failure |
| Handlers.EncodesAcross | audiowire/src/handlers.rs:224-241 | one encoder across drains: draining whole buffers and then more makes the packets of all of them drained at once |
| Handlers.EncodesEachBuffer | audiowire/src/handlers.rs:233-236 | the i-th packet is what the encoder makes of all it was given up to the i-th whole buffer, up to the first buffer it fails on |
| Handlers.SendPacket | audiowire/src/handlers.rs:237-240 | the bytes written are the framed packet |
| Handlers.PlayOpus | audiowire/src/handlers.rs:136-148 | exactly the packets of the stream are decoded in order and offered to the ring; end of stream, an oversized length and a decoder failure end the loop |
| Handlers.OpusRelay | audiowire/src/handlers.rs:233-241 | what an Opus drain sends is read back packet by packet, then the stream ends |
| Handlers.OpusRelayOverDatagrams | audiowire/src/handlers.rs:134-241 | the same over datagrams, one packet each, any of them lost, repeated or reordered: exactly the packets that arrive are read back |
| Handlers.OpusEndToEnd | audiowire/src/handlers.rs:136-241 | the playback loop decodes exactly the packets a drain encoded, in order, then sees the end of the stream |
| Handlers.PlayExtends | audiowire/src/handlers.rs:144-147 | the decoded samples are appended whole or not at all, never beyond the room, and whole frames stay whole |
| Handlers.PlaysOneMore | audiowire/src/handlers.rs:142-147 | the next packet is decoded with all before it, its samples appended whole when they fit, else lost; nothing is played after a failure |
| Framing.ByteOrder | audiowire/src/handlers.rs:139 | on both sides the first byte of a length counts 256 times the second |
| Framing.ByteOrderIsLexicographic | audiowire/src/handlers.rs:237 | lengths compare as their two bytes do, from the first on |
| Framing.FrameLayout | audiowire/src/handlers.rs:237-240 | a framed packet is its length, most significant byte first, and then its bytes |
| Framing.ParseOneExactly | audiowire/src/handlers.rs:137-141 | told from the bytes: a packet is read if and only if its length is at most 8190 and all of it is there, and the loop panics if and only if the length is larger |
| Framing.BigEndianRoundTrip | audiowire/src/handlers.rs:237 | the two-byte length comes back if and only if it is below 65536 |
| Framing.RoundTrip | audiowire/src/handlers.rs:134-141 | a framed stream parses into the packets it was made of, then whatever follows |
| Framing.Truncation | audiowire/src/handlers.rs:137-141 | of a framed stream cut anywhere, exactly the packets wholly before the cut are read, then the end of the stream is reported |
| Framing.WhollyBeforeIsLast | audiowire/src/handlers.rs:137-141 | the number of packets wholly before a cut is the largest that fits |
| Datagrams.UdpPeerReadHalf.ReadExact | audiowire/src/peer.rs:67-112 | the loop over buffer, offset, leftover and backlog computes the reading whose properties follow, panics included |
| Datagrams.FillConserves | audiowire/src/peer.rs:88-110 | the loop keeps what is filled, takes datagrams in order, at most one per byte, and puts all their bytes into buffer and leftover |
| Datagrams.ConservedExactly | audiowire/src/peer.rs:69-110 | a successful read conserves bytes if and only if the old leftover was absent, filled the buffer, or was exactly half of it |
| Datagrams.OutcomeExactly | audiowire/src/peer.rs:67-110 | for every request, leftover and backlog, exactly when a read succeeds, runs out of datagrams, or panics: datagrams are taken while each is half of what is missing, and the first that is not decides by its length |
| Datagrams.ReassemblesExactly | audiowire/src/peer.rs:67-112 | when the requests split each datagram exactly, no read fails or panics, the bytes come back as sent, and nothing is left over at the end of a datagram |
| Datagrams.ReceiveOpus | audiowire/src/handlers.rs:134-141 | the reads of the Opus playback loop, the second as long as the first says, over the datagram reader, with every way of ending |
| Datagrams.OpusOverDatagrams | audiowire/src/handlers.rs:134-141 | from framed packets of at most 8190 bytes, one a datagram, that loop gets exactly the packets, with nothing left over, and goes on with the datagrams that follow |
| Datagrams.OpusSessionEnds | audiowire/src/handlers.rs:134-141 | told to stop after the packets it has taken none of the datagrams that follow; otherwise it sees the end of the datagrams |
| Datagrams.RoundOnDatagram | audiowire/src/handlers.rs:137-141 | what a round makes of the first datagram: an empty one and one that announces more than 8190 bytes are panics, one at least as long as it announces gives its packet and leaves the rest over |

## Left out

- Spsc: a load of the index a side owns is one step with the load of the other side's index; under the invariant only its owner stores it, so nothing can come between that matters.
- Spsc: C's weaker memory orders; the indices are atomics with the default order, so steps are taken as sequentially consistent.
- Spsc: pushes that discard while a pop is running (loopback.rs pushes without a guard); the safety theorems cover guarded pushes, SpscSequential.PushRefines pushes that discard without a pop in between.
- RingRuns.PerformAll: runs with a pop_back_from outside its contract; what such a call does is stated for the single call.
- Pipeline: pauses, wall-clock time and thread scheduling; any order of steps is allowed, and a thread may stop for good.
- Pipeline: the Opus loops; the two threads between the rings are the raw ones, and the Opus loops are modelled one at a time in Handlers.
- Spsc: requests of the output device for more than max_bufsize bytes; PortAudio's configured buffer excludes them, for PulseAudio it is assumed.
- Handlers: the outer loops run until a signal; each method is one drain, or a given number of rounds, and the signal itself, the pause between drains and logging are not modelled.
- Handlers: the 65536-byte stack buffers; a buffer of exactly the configured size is passed in.
- Handlers: the Opus encoder and decoder are arbitrary functions of all their inputs so far, the encoder's result no longer than the slice it is given; audio fidelity is not modelled.
- Datagrams.ReceiveOpus: a packet that is not decoded and the offers to the ring; Handlers.PlayOpus has both, over a byte stream.
- Datagrams: a channel that stays open and silent; the backlog is every datagram received before the channel closes.
- Streams: device discovery, connection, main loops and teardown of PortAudio and PulseAudio, and a PulseAudio write that is not granted.
- Streams: stream type and flag bits, retries, result parsing, command lines and ownership of C pointers.
