# Voxlink protocols, modelled and proved in Dafny

Voxlink is a voice, screen-share and chat application. Between its threads and over a lossy network it
moves data with small hand-written protocols: a lock-free sample ring, a chunked screen-frame transport,
a compare-and-swap sequence filter and rate limiter, two-lane outbound queues, a pool of audio buffers,
and a handful of controllers. This project models those protocols and proves what they keep over whole
runs and under every interleaving.

How the model is laid out:

- Threads that interleave (the ring, the sequence filter, the rate limiter, the outbound lanes, the buffer
  pool) are state machines. Each atomic load, store, compare-exchange, slot access, queue operation or write
  to the sink is one step, and a schedule, any sequence of steps, picks their order. Every theorem is about all
  schedules. Fields the code does not have, kept only to state a theorem, are called history.
- Objects whose methods change their fields are classes. Each method is proved to compute a function of the
  old state, and the lemmas are about that function and its runs.
- Numbers of fixed width are natural numbers with their wrap-around, saturation or truncation written out;
  the bytes of Base64 and the noise register are bit-vectors. Samples, gains and ratios are real numbers.
- Clock readings, device deliveries, network events and lock outcomes are inputs.

| file | module | what it models |
|---|---|---|
| `RingIndex.dfy`, `SpscRing.dfy`, `SpscRingBuf.dfy` | `RingIndex`, `SpscSteps`, `SpscRingBuffer` | the playback ring, as interleaved steps and as a class over an array |
| `CaptureRing.dfy` | `CaptureFraming` | the capture ring and the framing loop |
| `JitterControl.dfy` | `JitterControl` | jitter-depth adaptation and readiness |
| `Utf8.dfy`, `ScreenWire.dfy` | same | sender ids; serial numbers, chunk metadata, packets, splitting and sending |
| `ScreenAssembly.dfy`, `ScreenReceiver.dfy` | `ScreenAssembly`, `ScreenReceiver` | reassembly, as functions and as classes |
| `ScreenRuns.dfy`, `ScreenReassembly.dfy` | `ScreenRuns`, `ScreenReassembly` | whole runs of the receiver |
| `ScreenSending.dfy` | `ScreenSending` | a sender's whole run, composed with the receiver's |
| `SequenceFilter.dfy`, `RateLimiter.dfy` | same | the server's lock-free checks |
| `OutboundLanes.dfy` | `OutboundLanes` | a peer's outbound path and its teardown |
| `MediaPool.dfy` | `MediaPool` | the zero-allocation capture-to-network path |
| `AdaptiveQuality.dfy`, `TransportFeedback.dfy` | same | screen-share controllers |
| `GroupCoding.dfy`, `Base64.dfy` | same | Base64, split into the group structure and the bits |
| `Dsp.dfy`, `ClipPlayback.dfy` | same | level control, and clip playback |
| `Common.dfy` | `Common` | shared vocabulary |

What the proofs show about the code that its comments do not say, or say otherwise:

- `CaptureRing::push_slice` is documented as losing the oldest data on overflow. It loses a whole ringful: what
  is left is the newest part, its length being the total modulo the capacity, possibly nothing
  (`CaptureFraming.PushedKeepsRemainder`). Deliveries of at most three frames never overflow, and that bound is
  exact (`CaptureFraming.ThreeFramesIsTight`).
- The two u16 run counters of the jitter controller do overflow in long runs (`JitterControl.BothCountersWrap`), but
  only while the depth sits at its limit (`JitterControl.CountersWrapIff`).
- The server's sequence filter is linearizable for any sequences (`SequenceFilter.Linearizable`), but a sequence can
  be new twice. On a fresh register it cannot if and only if the sequences offered fit an arc of 2^31 + 1 values, the
  one from 0 to 2^31 in case 0 is offered (`SequenceFilter.NewAtMostOnceIffOrdered`). Otherwise the register can go
  all the way round, either by being unset, since the code reads 0 as "unset" (`SequenceFilter.ZeroReopensTheFilter`),
  or by advances of less than 2^31 each (`SequenceFilter.FullTurnReopensTheFilter`).
- `atomic_rate_check` admits more than its limit suggests when callers interleave, for two reasons. It reads the clock
  before the window, so a delayed caller can move the window back, exactly when `RateLimiter.WindowMovesBackIff` says,
  and then any number of calls 1 ms apart may be admitted (`RateLimiter.DelayedCallersDefeatAnyTimeBound`). And a call
  may pause before it counts, so that even with a window that only moves forward any number of calls with one clock
  reading may be admitted (`RateLimiter.PausedCallersShareOneReading`). What holds for interleaved callers is a bound
  per reset (`RateLimiter.FewCallsBoundedByResets`) and, if no load is stale, a bound on the resets and admissions
  over the whole time (`RateLimiter.FreshCallersAdmitByTheSecond`). One caller at a time, each second is bounded
  (`RateLimiter.AtMostTwiceTheLimitPerSecond`).
- Completing a screen frame removes its assembler, so the sequences a client emits need not increase: frame 2 can be
  followed by frame 1 (`ScreenReassembly.OlderFrameFollowsNewer`). After an emission an older frame comes out only if
  each of its chunks arrives afterwards (`ScreenRuns.AfterAnEmissionAllChunksAreNeeded`), and in an undisturbed run
  exactly then (`ScreenReassembly.AfterAnEmissionEmittedIffAllArrive`). A live assembler only moves forward
  (`ScreenRuns.LiveSequenceAdvances`).
- The comments in `outbound.rs` speak of a counter bumped on signaling overflow and on a closed media lane;
  `send_to` and `try_send_media` do neither. The model follows the code.
- Base64 `decode` documents `None` for malformed input, but accepts nonzero trailing bits
  (`Base64.SpareBitsAreAccepted`); `Base64.EncodeInvertsDecodeIffCanonical` says exactly when decoding loses nothing.
- The soft clip keeps the order of inputs exactly as `Dsp.SoftClipOrder` says, so it is monotone on -2..2 and on no
  larger interval around 0 (`Dsp.MonotoneExactlyWithinTwo`).
- The comfort-noise register is 32 bits wide, and its step merges exactly the words that differ by 0x16801
  (`Dsp.ShiftMergesExactly`); on the nonzero 16-bit words, where it starts and stays, it is therefore a permutation.

## Model

| member | source | states |
|---|---|---|
| `RingIndex.AppendSlot` | crates/audio_core/src/buffers.rs:96-112 | Writing the slot at the write cursor changes nothing buffered; advancing the cursor then appends exactly that sample. |
| `RingIndex.DropFront` | crates/audio_core/src/buffers.rs:163-191 | Advancing the read cursor by k removes exactly the k oldest samples. |
| `RingIndex.SplitIndex` | crates/audio_core/src/buffers.rs:172-187 | The slot read by the two-part copy for the i-th sample is the i-th slot from the read cursor, around the end of the array. |
| `SpscSteps.FifoRefinement` | crates/audio_core/src/buffers.rs:96-232 | For every schedule of the two threads' steps: what was drained or discarded, in order, followed by what is buffered, is exactly the accepted pushes; these are an in-order subsequence of the offered ones, and every offered sample is accepted, counted as dropped, or still being pushed. |
| `SpscSteps.FifoWithoutClear` | crates/audio_core/src/buffers.rs:96-191 | Without `clear`, the samples drained followed by those buffered are the accepted pushes, and each drain takes all that was buffered when it loaded `write`, up to the room it was given; peeking removes nothing. |
| `SpscSteps.CallsHandOverWhatTheySaw` | crates/audio_core/src/buffers.rs:163-231 | Whatever the producer does meanwhile: a drain hands over exactly the oldest samples buffered when it began, as many as it has room for, a peek looks at the oldest 480 of them, and a clear discards them all. |
| `SpscSteps.NothingDiscarded` | crates/audio_core/src/buffers.rs:228-231 | In a run that starts no `clear`, nothing but drains ever removes a sample. |
| `SpscSteps.WriteAvoidsOpenWindow` | crates/audio_core/src/buffers.rs:105-110 | The slot the producer is about to write is never one the consumer may still read in its open window. |
| `SpscSteps.DroppedIffFull` | crates/audio_core/src/buffers.rs:97-103 | A push is dropped if and only if the ring holds capacity - 1 samples at the moment it loads `read`. |
| `SpscSteps.WaitFree` | crates/audio_core/src/buffers.rs:96-191 | Each thread's own step shortens what its call has left to do, and no step of the other thread touches it. |
| `SpscSteps.RunInv` | crates/audio_core/src/buffers.rs:96-232 | Every reachable state is safe, conserves the samples, has seen only full drains, and accounts for every offered sample. |
| `SpscSteps.StepSafe` | crates/audio_core/src/buffers.rs:76-232 | Every step keeps the cursors in range and both threads' local copies usable, so every slot access is in bounds. |
| `SpscSteps.StepInv` | crates/audio_core/src/buffers.rs:96-232 | Every single step of either thread keeps that safety together with the FIFO law, full drains, and the account of offered samples. |
| `SpscSteps.ProducerEffect` | crates/audio_core/src/buffers.rs:96-112 | A producer step leaves the consumer's side alone and changes the buffered samples only when it stores `write`, by appending. |
| `SpscSteps.ConsumerEffect` | crates/audio_core/src/buffers.rs:163-231 | A consumer step leaves the data and the producer's side alone; what it takes followed by what remains is what was buffered. |
| `SpscRingBuffer.SpscRingBuf.constructor` | crates/audio_core/src/buffers.rs:76-83 | A new ring has the asked capacity and holds nothing. |
| `SpscRingBuffer.SpscRingBuf.Len` | crates/audio_core/src/buffers.rs:87-91 | The number of buffered samples. |
| `SpscRingBuffer.SpscRingBuf.Push` | crates/audio_core/src/buffers.rs:96-112 | Appends the sample, or changes nothing when capacity - 1 samples are held. |
| `SpscRingBuffer.SpscRingBuf.PushSlice` | crates/audio_core/src/buffers.rs:116-120 | Appends the longest prefix of the batch that fits. |
| `SpscRingBuffer.SpscRingBuf.DrainInto` | crates/audio_core/src/buffers.rs:163-191 | Moves min(room, held) samples, oldest first, to the front of the destination and leaves the rest of both alone. |
| `SpscRingBuffer.SpscRingBuf.MixInto` | crates/audio_core/src/buffers.rs:128-156 | Adds the volume-scaled oldest samples onto the destination, removes them from the ring, leaves the rest alone. |
| `SpscRingBuffer.SpscRingBuf.Clear` | crates/audio_core/src/buffers.rs:228-231 | The ring is empty afterwards. |
| `CaptureFraming.CaptureRing.PushSlice` | crates/audio_core/src/buffers.rs:32-37 | Stores every sample at the advancing write cursor, full or not. |
| `CaptureFraming.PushKeepsFifoIffItFits` | crates/audio_core/src/buffers.rs:30-37 | A push appends its batch to what the ring holds if and only if together they leave a slot free. |
| `CaptureFraming.PushedKeepsRemainder` | crates/audio_core/src/buffers.rs:30-37 | For any push, what is left is the newest part of old contents and batch, its length being their total modulo the capacity. |
| `CaptureFraming.CaptureRing.ReadFrame` | crates/audio_core/src/buffers.rs:42-58 | Succeeds exactly when 960 samples are held; then the frame followed by what remains is what was held, across the wrap-around; otherwise nothing changes. |
| `CaptureFraming.CaptureRing.ReadFrames` | crates/audio_core/src/lib.rs:647-649 | The reading loop leaves less than a frame; the frames, all of full length, followed by the residual are what the ring held. |
| `CaptureFraming.CaptureRing.Callback` | crates/audio_core/src/lib.rs:645-649 | For any delivery: frames read followed by the residual are the newest part of previous residual and delivery, as long as their total modulo the capacity; so all of it if it fits. |
| `CaptureFraming.CaptureRing.CaptureAll` | crates/audio_core/src/lib.rs:623-649 | Any number of deliveries of at most three frames each: all frames read followed by a residual shorter than a frame are all the samples ever delivered, in order. |
| `CaptureFraming.ThreeFramesIsTight` | crates/audio_core/src/lib.rs:623 | With the largest residual, a delivery survives in the four-frame ring if and only if it is at most three frames long. |
| `JitterControl.PeerPlayback.AdaptFromAtomics` | crates/audio_core/src/buffers.rs:402-449 | The method computes the controller's step on the two counters it reads. |
| `JitterControl.DepthOverAnyRun` | crates/audio_core/src/buffers.rs:402-449 | Over any run of checks and callbacks the depth is 2 + expansions - reductions and stays in 1..5; E expansions take at least the sum over k < E of min(3 * 2^k, 24) underrun checks, R reductions at least 151 stable checks each. |
| `JitterControl.ThresholdIsCappedDoubling` | crates/audio_core/src/buffers.rs:430 | The thresholds are 3, 6, 12, then 24, and their sums have the closed form. |
| `JitterControl.ReductionIffQuiet` | crates/audio_core/src/buffers.rs:403-447 | A check reduces the depth if and only if its reading shows callbacks but no underrun since the reading before, it is the 151st such one since the last underrun check or reduction, and the depth is above 1. |
| `JitterControl.ExpansionIffStreak` | crates/audio_core/src/buffers.rs:403-436 | A check expands the depth if and only if its reading shows callbacks and an underrun since the reading before, it completes an unbroken run of min(3 * 2^E, 24) such checks, E being the expansions so far, and the depth is below 5. |
| `JitterControl.ReadingsAreCounted` | crates/audio_core/src/buffers.rs:403-418 | For any two readings in a row after any run: not counted if the callbacks are equal, otherwise an underrun check exactly when the underruns differ and a stable check exactly when they are equal. |
| `JitterControl.UnprimedIffExpanded` | crates/audio_core/src/buffers.rs:428 | In every run of checks and callback stores, a check leaves the peer primed if and only if it was primed and the check does not expand the depth; and from every reachable state a primed one at the same depth can be reached. |
| `JitterControl.CountersWrapIff` | crates/audio_core/src/buffers.rs:417-439 | Each u16 run counter is at its maximum if and only if its run is one short of a multiple of 2^16, and then the depth sits at its limit. |
| `JitterControl.BothCountersWrap` | crates/audio_core/src/buffers.rs:417-439 | Runs that reach the limits and go on m checks leave m modulo 2^16, so both counters do wrap. |
| `JitterControl.ReadinessIsReachable` | crates/audio_core/src/buffers.rs:359-362 | In every reachable state the readiness threshold fits in the ring's usable 9599 samples. |
| `JitterControl.ReadyIffBuffered` | crates/audio_core/src/buffers.rs:359-362 | In every run an unprimed peer is ready if and only if its ring holds 960 samples for each of the 2 + expansions - reductions frames of depth. |
| `ScreenWire.NewerIsForwardDistance` | crates/net_control/src/lib.rs:775-777 | On the low 32 bits of any two counters, newer means a forward distance below 2^31 (section 3.2 of RFC 1982). |
| `ScreenWire.NewerIffGreater` | crates/net_control/src/lib.rs:775-777 | Counters less than 2^31 apart are ordered as the unbounded counters are. |
| `ScreenWire.NewerIsAsymmetric` | crates/net_control/src/lib.rs:775-777 | Never both newer; neither only for equal values or values exactly 2^31 apart. |
| `ScreenWire.DecodeInvertsEncode` | crates/shared_types/src/screen.rs:18-48 | Decoding encoded metadata gives it back with the remaining bytes if the index is below the count, and is refused otherwise. |
| `ScreenWire.EncodeInvertsDecode` | crates/shared_types/src/screen.rs:30-48 | Whatever decodes is the encoding of what it decodes to, with an index in range. |
| `ScreenWire.BigEndianRoundTrip` | crates/shared_types/src/screen.rs:24-34 | The 32-bit big-endian form is a bijection. |
| `ScreenWire.ParseInvertsPacket` | crates/net_control/src/lib.rs:741-754 | A well-formed chunk packet parses to its sender, metadata and data. |
| `ScreenWire.PacketInvertsParse` | crates/net_control/src/lib.rs:741-754 | The parser accepts only packets of well-formed chunk frames, each as itself. |
| `ScreenWire.ParseScreenInvertsPacket` | crates/net_control/src/lib.rs:728-739 | A reassembled frame under its sender header parses back to sender and frame. |
| `ScreenWire.ScreenPacketInvertsParse` | crates/net_control/src/lib.rs:728-739 | Only a nonempty frame under a sender header parses, and as itself. |
| `Utf8.IsUtf8IffText` | crates/net_control/src/lib.rs:741-754 | The bytes accepted as a sender id are exactly the UTF-8 encodings of sequences of characters (section 3 of RFC 3629). |
| `ScreenWire.ChunksJoin` | crates/net_control/src/lib.rs:426-434 | The 4096-byte chunks of a frame, joined in order, are the frame. |
| `ScreenWire.ScreenSender.NextScreenSequence` | crates/net_control/src/lib.rs:882-886 | Returns the counter's successor modulo 2^32, which is also the new counter. |
| `ScreenWire.ScreenSender.SplitFrame` | crates/net_control/src/lib.rs:428-451 | The loop emits, in order, one packet for each chunk, under one sequence and count. |
| `ScreenWire.ScreenSender.SendScreenFrame` | crates/net_control/src/lib.rs:407-492 | Short frames go out whole and use no sequence; longer ones use the next sequence for all their chunks; a frame of more than 65535 chunks sends nothing and uses a sequence on each transport tried. |
| `ScreenAssembly.StoreChunkCases` | crates/net_control/src/lib.rs:87-102 | Storing a chunk in a live assembler is refused exactly when it is of another frame or would pass 512 KiB; otherwise the assembler stays live or has every slot filled. |
| `ScreenAssembly.DeliverValid` | crates/net_control/src/lib.rs:812-856 | Every delivery keeps all assemblers live and the accounts balanced, and a frame comes out exactly when one more is counted as completed. |
| `ScreenAssembly.AbsorbValid` | crates/net_control/src/lib.rs:799-858 | `absorb_screen_chunk` keeps the receiver valid for any bytes at any times. |
| `ScreenAssembly.ExpireValid` | crates/net_control/src/lib.rs:779-797 | Removing timed-out assemblers, each counted, keeps the receiver valid. |
| `ScreenAssembly.ExpiresExactly` | crates/net_control/src/lib.rs:779-797 | A timeout check keeps an assembler, untouched, if and only if its latest chunk is less than 1500 ms old. |
| `ScreenAssembly.ExpiryIsCounted` | crates/net_control/src/lib.rs:779-797 | The timeout counter rises by exactly the number of assemblers removed, and no other counter moves. |
| `ScreenAssembly.ChunkIsHeldUnlessOld` | crates/net_control/src/lib.rs:812-856 | A chunk that is not old for its sender is afterwards held in an assembler for its frame unless it completed the frame or took it past 512 KiB; an old one changes nothing. |
| `ScreenAssembly.DeliveryIsCounted` | crates/net_control/src/lib.rs:812-857 | The superseded counter moves exactly when the chunk is newer than the sender's live assembler, the completed counter exactly when a frame comes out, the others not at all. |
| `ScreenAssembly.JoinOfChunks` | crates/net_control/src/lib.rs:112-124 | Slots that hold exactly a list of chunks join to those chunks, in order. |
| `ScreenReceiver.ScreenChunkAssembler.StoreChunk` | crates/net_control/src/lib.rs:87-102 | The method computes the specification's `StoreChunk` in place. |
| `ScreenReceiver.ScreenChunkAssembler.IntoFrame` | crates/net_control/src/lib.rs:112-124 | The joining loop yields the frame behind its header, or nothing when a chunk is missing or the sender id too long. |
| `ScreenReceiver.Receiver.ExpireStaleScreenChunks` | crates/net_control/src/lib.rs:779-797 | Removes exactly the timed-out assemblers and returns their number. |
| `ScreenReceiver.Receiver.AbsorbScreenChunk` | crates/net_control/src/lib.rs:799-858 | Over a map of mutable assemblers, the method computes the specification's step and its emitted frame, and keeps the receiver valid. |
| `ScreenRuns.Accounting` | crates/net_control/src/lib.rs:64-125 | Over any run of packets, timeouts and reconnects: assemblers opened = completed + superseded + timed out + dropped for size + cleared + live; a live one counts exactly its filled slots, fewer than its chunks, and its stored bytes, at most 512 KiB. |
| `ScreenRuns.CompletedAreEmitted` | crates/net_control/src/lib.rs:855-857 | The completed counter counts exactly the frames emitted. |
| `ScreenRuns.Integrity` | crates/net_control/src/lib.rs:799-858 | Under any loss, duplication, reordering, timeouts, reconnects and traffic of others, each frame emitted for a sequence of an honest sender (fewer than 2^32 frames) is byte for byte the frame split under it. |
| `ScreenRuns.RelayedChunkParses` | crates/net_control/src/lib.rs:428-447 | What the sender puts on the wire arrives, behind the relay's header, as that piece of that frame. |
| `ScreenRuns.EmissionParses` | crates/net_control/src/lib.rs:728-739 | What the receiver emits parses back to the sender and its frame. |
| `ScreenRuns.EmissionsBounded` | crates/net_control/src/lib.rs:837-857 | Frames emitted for a sequence, plus one if chunk i is held for it, are at most the arrivals of chunk i. |
| `ScreenRuns.EmittedAtMostPerChunk` | crates/net_control/src/lib.rs:837-857 | A frame is emitted at most as often as each of its chunks arrives: at most once without duplicates, never when a chunk is lost. |
| `ScreenRuns.AbsorbTouchesOneSender` | crates/net_control/src/lib.rs:799-856 | Absorbing a packet, expiry included, leaves every other sender's assembler as it is unless that one has timed out, and then removes it. |
| `ScreenRuns.LiveSequenceAdvances` | crates/net_control/src/lib.rs:812-835 | A step that changes a live assembler's sequence makes it newer, unless the assembler had timed out. |
| `ScreenRuns.PacketsAreCounted` | crates/net_control/src/lib.rs:804-805 | Over any run of packets, timeouts and reconnects the packet counter rises by the packets that parse, whatever becomes of them. |
| `ScreenRuns.ReconnectStartsAfresh` | crates/net_control/src/lib.rs:321-329 | After a reconnect each emission of a sequence needs a further arrival of each of its chunks. |
| `ScreenRuns.PacketTicksFirst` | crates/net_control/src/lib.rs:799-810 | A packet that parses acts as a timeout check at its time followed by the packet; one that does not parse changes nothing. |
| `ScreenReassembly.NothingEarly` | crates/net_control/src/lib.rs:799-858 | While a chunk is missing nothing is emitted for the sender, and the receiver holds exactly the chunks that have arrived. |
| `ScreenReassembly.ReassemblesOnLastDistinctChunk` | crates/net_control/src/lib.rs:425-447 | Split then reassemble is the identity: chunks in any order with any duplicates, for every frame over 4096 bytes and up to 512 KiB, emit that frame at the last distinct chunk and nothing before. |
| `ScreenReassembly.DeliversWhatWasSent` | crates/net_control/src/lib.rs:407-858 | End to end: if every chunk the sender emitted arrives through the relay, in any order, with duplicates, among other traffic and late chunks of older frames, with no gap of 1500 ms, then the last distinct chunk, and none before, makes the receiver emit that frame. |
| `ScreenSending.SendAll` | crates/net_control/src/lib.rs:407-492 | Sending any frames one after another over any transports puts exactly the specified packets on the wire and leaves the specified counter. |
| `ScreenSending.SentPacketsAreAuthentic` | crates/net_control/src/lib.rs:407-492 | Every packet a sender has emitted reaches the receiver, through the relay, as a whole frame or as a chunk of the frame that took its sequence. |
| `ScreenSending.OnlySentFramesAreEmitted` | crates/net_control/src/lib.rs:799-858 | Sender to receiver, with fewer than 2^32 sequences used and nothing of the sender in progress at the start: whatever the network does, each frame emitted for the sender is one it has sent, under the sequence it took. |
| `ScreenReassembly.EmittedIffAllArrive` | crates/net_control/src/lib.rs:799-858 | In any undisturbed run a frame comes out if and only if all of its chunks have arrived. |
| `ScreenReassembly.TickKeepsTransferIff` | crates/net_control/src/lib.rs:779-797 | A timeout check in an undisturbed run keeps a transfer with chunks missing if and only if its last accepted chunk is stamped less than 1500 ms before; the counter rises by the number removed. |
| `ScreenReassembly.TimedOutTransferStartsAfresh` | crates/net_control/src/lib.rs:779-858 | After a check that comes 1500 ms or more after the last stamp, with chunks missing, the transfer is emitted at most as often as each of its chunks arrives after the check, whatever else happens. |
| `ScreenRuns.EmissionClosesAssembler` | crates/net_control/src/lib.rs:855-857 | An event emits at most one frame and leaves no assembler for the sender of what it emits. |
| `ScreenRuns.AfterAnEmissionAllChunksAreNeeded` | crates/net_control/src/lib.rs:799-858 | After an emission, any frame of the sender, older ones included, is emitted at most as often as each of its chunks arrives afterwards. |
| `ScreenReassembly.AfterAnEmissionEmittedIffAllArrive` | crates/net_control/src/lib.rs:799-858 | After an emission, a further frame, newer or older, comes out of an undisturbed run if and only if all its chunks arrive in it. |
| `ScreenReassembly.OlderFrameFollowsNewer` | crates/net_control/src/lib.rs:855 | For any sender and any two frames: frame 2 sent in full and then frame 1 are both emitted, in that order, so emitted sequences need not increase. |
| `ScreenReassembly.StoredFits` | crates/net_control/src/lib.rs:92-97 | The stored pieces of a frame never outgrow it, so an allowed frame is never dropped for size. |
| `SequenceFilter.LastSequence.SequenceState` | crates/signaling_server/src/validation.rs:47-69 | For any writes of other threads before its compare-exchanges, the call decides on a value the register really held: Existing and Stale leave the register, New leaves the sequence in it. |
| `SequenceFilter.AdvancesIffLarger` | crates/signaling_server/src/validation.rs:53-58 | On counters less than 2^31 apart the filter advances exactly for a larger one, except that a register of 0 lets anything else through. |
| `SequenceFilter.DecideComparesHeights` | crates/signaling_server/src/validation.rs:53-58 | Within a window of 2^31 nonzero sequences the tests are a comparison of positions. |
| `SequenceFilter.Linearizable` | crates/signaling_server/src/validation.rs:47-69 | For any sequences and any interleaving: once all calls have returned, verdicts and register are those of the same calls taken one after another, each once. |
| `SequenceFilter.OrderRespectsTime` | crates/signaling_server/src/validation.rs:47-69 | In that order a call that has returned precedes one that has not begun. |
| `SequenceFilter.OneByOneRuns` | crates/signaling_server/src/validation.rs:47-69 | Conversely calls made one after another get exactly the sequential verdicts. |
| `SequenceFilter.NewAgainTakesAFullTurn` | crates/signaling_server/src/validation.rs:53-67 | What happens when the condition fails: between two New verdicts for one sequence the register travels a positive multiple of 2^32, and unless it is unset on the way that takes three New verdicts. |
| `SequenceFilter.ZeroReopensTheFilter` | crates/signaling_server/src/validation.rs:56 | First cause: an offered 0 unsets the register and a sequence already New is New again. |
| `SequenceFilter.FullTurnReopensTheFilter` | crates/signaling_server/src/validation.rs:56-60 | Second cause: with no 0 offered, three advances of less than 2^31 each take the register round. |
| `SequenceFilter.RegisterNeverDecreases` | crates/signaling_server/src/validation.rs:47-69 | Under any interleaving of any number of calls, no step moves the register back. |
| `SequenceFilter.NewAtMostOnceIffOrdered` | crates/signaling_server/src/validation.rs:47-69 | On a fresh register, over all interleavings of any number of calls: each offered sequence is New at most once if and only if the set offered fits an arc of 2^31 + 1 values, the one from 0 if 0 is offered. |
| `SequenceFilter.QuiescentRegisterIsMaximum` | crates/signaling_server/src/validation.rs:47-69 | Once all calls have returned, the register is the highest of its initial value and everything offered. |
| `SequenceFilter.RetriesPaidByAdvances` | crates/signaling_server/src/validation.rs:59-67 | For any sequences a call's retries are at most the advances other calls made since it began. |
| `SequenceFilter.StepLowersWork` | crates/signaling_server/src/validation.rs:52-68 | For any sequences, each step of an unfinished call lowers a work measure. |
| `SequenceFilter.AllCallsFinish` | crates/signaling_server/src/validation.rs:47-69 | n concurrent calls take at most n * (n + 3) steps in total, whatever the schedule. |
| `RateLimiter.Limiter.AtomicRateCheck` | crates/signaling_server/src/validation.rs:22-38 | One call by itself: verdict, window and counter are those of the specification. |
| `RateLimiter.AdmitsFirstOfEachWindow` | crates/signaling_server/src/validation.rs:22-38 | One at a time on a non-decreasing clock, over any number of windows of fewer than 2^32 calls each, exactly the first `limit` calls of each window are admitted, and the opener of a later window always. |
| `RateLimiter.AtMostTwiceTheLimitPerSecond` | crates/signaling_server/src/validation.rs:22-38 | Any stretch of such calls within less than 1000 ms admits at most 2 * max(1, limit). |
| `RateLimiter.AdmissionsBoundedByResets` | crates/signaling_server/src/validation.rs:22-38 | Under any interleaving and any clock readings, admissions are at most max(1, limit) * (successful window resets + counter overflows + 1). |
| `RateLimiter.FewCallsBoundedByResets` | crates/signaling_server/src/validation.rs:22-38 | With fewer than 2^32 calls between resets, however many in all, the overflow term is gone. |
| `RateLimiter.RefusedIffLimitReached` | crates/signaling_server/src/validation.rs:36-37 | In such runs, under any interleaving, a call that counts is refused if and only if the reset and the calls counted since it make up the limit. |
| `RateLimiter.CallAloneIsCheck` | crates/signaling_server/src/validation.rs:22-38 | In any state, a call stepped from begin to return with nothing in between has the verdict, window and counter of the sequential specification. |
| `RateLimiter.ExpiresIff` | crates/signaling_server/src/validation.rs:23-25 | A call tries to open a window if and only if the window it loads is at least 1000 ms old or newer than its clock reading. |
| `RateLimiter.WindowMovesBackIff` | crates/signaling_server/src/validation.rs:25-30 | A step moves the window back if and only if it is the compare-exchange of a call that loaded the current window but read the clock before it. |
| `RateLimiter.DelayedCallersDefeatAnyTimeBound` | crates/signaling_server/src/validation.rs:22-38 | For every n and every limit there is a run from the initial state in which n calls with clock readings 1 ms apart are all admitted: stale loads defeat any bound in time. |
| `RateLimiter.FreshCallersAdmitByTheSecond` | crates/signaling_server/src/validation.rs:22-38 | Under any interleaving in which no load meets a window newer than the call's reading: at most one reset for each 1000 ms since the initial window, and at most max(1, limit) admissions for each, one share more, and one for every overflow. |
| `RateLimiter.PausedCallersShareOneReading` | crates/signaling_server/src/validation.rs:22-38 | Even with no stale load, for every n and every limit of at least 2 there is a run in which n calls that read the clock at one instant are all admitted. |
| `OutboundLanes.ReliableLaneLosesNothing` | crates/signaling_server/src/connection.rs:371-399 | While the connection loop lives and no disconnect is pending, messages written, in hand and queued are all those submitted, in order. |
| `OutboundLanes.LossLeadsToDisconnect` | crates/signaling_server/src/connection.rs:143-152 | Whenever a message has been refused with the loop still alive, a permit is pending, and the next turn of the loop ends it. |
| `OutboundLanes.RefusedIffFullOrEnded` | crates/signaling_server/src/connection.rs:385-398 | `send_to` refuses exactly when the lane holds 256 frames or the drain task is gone. |
| `OutboundLanes.MediaRefusedIffFullOrEnded` | crates/signaling_server/src/outbound.rs:115-127 | A media frame is refused if and only if its lane holds 32 or the drain is gone, counted as dropped exactly in the first case, and queued last otherwise. |
| `OutboundLanes.PingRefusedIffFullOrEnded` | crates/signaling_server/src/outbound.rs:131-137 | A ping is queued on the terms of a message, and one that cannot be changes nothing. |
| `OutboundLanes.NoDisconnectWithoutCause` | crates/signaling_server/src/connection.rs:143-152 | A permit, hence a turn that ends the loop, comes only after a refused message or the end of the drain. |
| `OutboundLanes.UndisturbedDrainWritesTheOldest` | crates/signaling_server/src/outbound.rs:86-98 | Left to itself the drain writes the oldest signaling frame, or with none queued the oldest media frame; with both lanes empty it waits, or finishes once no sender is left. |
| `OutboundLanes.FailedWriteDisconnects` | crates/signaling_server/src/outbound.rs:99-109 | A failed write loses only the frame in hand, ends the drain, and so ends the loop at its next turn. |
| `OutboundLanes.SelectionNeedsEmptyPoll` | crates/signaling_server/src/outbound.rs:86-92 | Media is selected only in a round whose poll found the signaling lane empty. |
| `OutboundLanes.MediaYieldsToSignaling` | crates/signaling_server/src/outbound.rs:86-92 | While media is being written, every signaling frame accepted before that poll is already on the wire. |
| `OutboundLanes.WrittenMediaInOrder` | crates/signaling_server/src/outbound.rs:115-127 | Written media is an in-order subsequence of offered media and a prefix of accepted media; the rest was counted as dropped; the lanes hold at most 32 and 256 frames. |
| `OutboundLanes.CleanEndWroteEverything` | crates/signaling_server/src/outbound.rs:90-111 | A drain that ends because every sender is gone has written everything either lane accepted. |
| `OutboundLanes.FlushTerminates` | crates/signaling_server/src/connection.rs:236-239 | Once the senders are dropped every step of the drain task lowers the work left. |
| `OutboundLanes.FlushWritesEverything` | crates/signaling_server/src/outbound.rs:86-109 | Once the senders are dropped and no write fails, the drain ends clean within that work, with everything either lane accepted written. |
| `OutboundLanes.RunInv` | crates/signaling_server/src/outbound.rs:78-137 | Every reachable state conserves both lanes and keeps the order and refusal invariants. |
| `MediaPool.TwelveBuffersCirculate` | crates/media_transport/src/lib.rs:39-118 | In every reachable state pool, channel and the two hands hold exactly the twelve seeded buffers, nothing was allocated, and an idle callback finds at least three pooled. |
| `MediaPool.PoolNeverEmptyForCallback` | crates/media_transport/src/lib.rs:10-13 | With the buffers conserved, an idle callback finds a pooled buffer. |
| `MediaPool.SentIsSubsequenceOfCaptured` | crates/media_transport/src/lib.rs:63-113 | Sent frames are an unaltered in-order subsequence of captured ones; `dropped_frames` is exactly channel refusals plus lock timeouts; every captured frame is sent, failed, dropped or one of at most ten in flight. |
| `MediaPool.RefusedIffEightQueued` | crates/media_transport/src/lib.rs:108-114 | In every run a filled frame is refused if and only if eight frames are queued, and queued as it is otherwise. |
| `MediaPool.CapturedFrameIsSent` | crates/media_transport/src/lib.rs:60-115 | A frame captured with nothing queued and a willing network is sent byte for byte, and its buffer is pooled again. |
| `MediaPool.BuffersNeverGrow` | crates/media_transport/src/lib.rs:9 | With frames of at most 512 bytes no buffer outgrows its 1024, so filling never reallocates. |
| `AdaptiveQuality.Adaptive.RecordFrame` | crates/app_desktop/src/screen_share.rs:859-884 | The method computes the step and returns whether the preset changed. |
| `AdaptiveQuality.FlappingIsBounded` | crates/app_desktop/src/screen_share.rs:859-884 | Over any run: preset = downs - ups in 0..2, pressured frames >= 3 * downs + score, calm frames >= 48 * ups + stable frames. |
| `AdaptiveQuality.ChangesIffBucketFullOrCalm` | crates/app_desktop/src/screen_share.rs:859-884 | After any run the preset is lowered if and only if a pressured frame brings the leaky bucket of the frames since the last change to 3 and a lower one is left; raised if and only if a calm frame completes six seconds of calm and a higher one is left. |
| `AdaptiveQuality.SixPressuredFramesReachLowest` | crates/app_desktop/src/screen_share.rs:859-871 | From every reachable state six pressured frames in a row reach the lowest preset, and more keep it. |
| `AdaptiveQuality.CalmRunRecovers` | crates/app_desktop/src/screen_share.rs:873-883 | From every reachable state a calm run of the summed recovery lengths returns to the first preset, and more keep it. |
| `TransportFeedback.FeedbackState.Prune` | crates/app_desktop/src/screen_share.rs:322-329 | Only expired reports are removed, and none is left anywhere in the queue. |
| `TransportFeedback.FeedbackState.Record` | crates/app_desktop/src/screen_share.rs:286-294 | The report is added to everything recorded since the last clear; the version wraps at 2^64. |
| `TransportFeedback.FeedbackState.Summarize` | crates/app_desktop/src/screen_share.rs:296-315 | The pruned queue's summary is, per field, the smaller of 2^32 - 1 and the sum of everything recorded since the last clear and at most four seconds old. |
| `TransportFeedback.FeedbackState.Clear` | crates/app_desktop/src/screen_share.rs:317-320 | Nothing recorded counts any more; the version advances. |
| `TransportFeedback.ExpiredPrefix` | crates/app_desktop/src/screen_share.rs:322-329 | Dropping expired reports from the front does not change the window's sums. |
| `TransportFeedback.PressureMeansLoss` | crates/app_desktop/src/screen_share.rs:259-270 | For all counts: pressure is reported if and only if a frame timed out or the dropped ones are at least 3/25 of the frames, these capped at 2^32 - 1. |
| `TransportFeedback.CappingOverReports` | crates/app_desktop/src/screen_share.rs:296-315 | Capping never hides a loss, and over-reports exactly when the dropped frames are less than 3/25 of all but at least 3/25 of the cap; with an input. |
| `TransportFeedback.TransportPacer.RecordFeedback` | crates/app_desktop/src/screen_share.rs:220-240 | The method computes the pacing step and returns whether the level changed. |
| `TransportFeedback.LevelOverAnyRun` | crates/app_desktop/src/screen_share.rs:220-240 | Over any summaries the level is rises - falls in 0..2; each rise takes a pressured summary, each fall two calm ones. |
| `TransportFeedback.RisesIffPressured` | crates/app_desktop/src/screen_share.rs:220-240 | The level rises, by one, if and only if the summary is pressured and the level is below 2; version 0 counts for nothing. |
| `TransportFeedback.FallsAfterTwoCalmWindows` | crates/app_desktop/src/screen_share.rs:234-239 | The level falls if and only if it is raised and this is the second calm summary in a row since the last pressured one or fall. |
| `Base64.AlphabetIsStandard` | crates/shared_types/src/b64.rs:8 | The character arithmetic of the model is the 64-character alphabet of section 4 of RFC 4648. |
| `Base64.SymbolsAndValues` | crates/shared_types/src/b64.rs:45-48 | The reverse table inverts the alphabet, both ways, and the padding character is not in it. |
| `Base64.BuildReverse` | crates/shared_types/src/b64.rs:45-48 | The loop fills a table that maps every byte to its value, or to 255. |
| `Base64.EncodeBytes` | crates/shared_types/src/b64.rs:12-32 | The loop computes the group-wise encoding. |
| `Base64.DecodeBytes` | crates/shared_types/src/b64.rs:36-90 | The loop, with its table and early exits, computes the group-wise decoding. |
| `Base64.PackUnpack` | crates/shared_types/src/b64.rs:15-29 | Packing the six-bit values of one to three bytes gives the bytes back. |
| `Base64.GroupsAreTheSameBits` | crates/shared_types/src/b64.rs:15-29 | Three bytes and their four six-bit values are the same 24 bits, in both directions (section 4 of RFC 4648). |
| `Base64.UnpackPack` | crates/shared_types/src/b64.rs:66-84 | Unpacking packed values gives them back if and only if the bits no byte uses are zero. |
| `Base64.DecodeInvertsEncode` | crates/shared_types/src/b64.rs:12-90 | For every byte string x: decode(encode(x)) = x, and encode(x) has 4 * ceil(|x| / 3) characters. |
| `Base64.AcceptsExactlyWellPadded` | crates/shared_types/src/b64.rs:36-90 | `decode` accepts a string if and only if it is whole groups of alphabet characters with at most two padding characters at the very end. |
| `Base64.EncodeInvertsDecodeIffCanonical` | crates/shared_types/src/b64.rs:36-90 | Re-encoding what was decoded gives the string back if and only if the unused bits of its last group are zero (section 3.5 of RFC 4648). |
| `Base64.SameBytesIffSameUsedBits` | crates/shared_types/src/b64.rs:66-84 | Two padded last groups that differ in their last symbol decode alike if and only if the symbols differ only in unused bits. |
| `Base64.SpareBitsAreAccepted` | crates/shared_types/src/b64.rs:66-70 | An accepted string whose last group has a nonzero unused bit. |
| `GroupCoding.RoundTrip` | crates/shared_types/src/b64.rs:12-90 | Any pair of group coders that invert each other on groups gives a round trip on whole strings. |
| `GroupCoding.ReencodesIffCanonical` | crates/shared_types/src/b64.rs:36-90 | Whether re-encoding is the identity is decided by the last group alone. |
| `Dsp.GainControl.Process` | crates/audio_core/src/codec.rs:336-367 | One frame of either gain control: the new estimate from the frame's root mean square, the gain ramp over the frame, every output scaled, limited and at most 0.95 in magnitude; the gain stays in range. |
| `Dsp.GainRangeOverAnyRun` | crates/audio_core/src/codec.rs:336-429 | Over any run of frames, levels and gate states: capture gain in 0.1..10, playback gain in 0.15..6. |
| `Dsp.GainClosesIn` | crates/audio_core/src/codec.rs:359-360 | The distance to the target gain shrinks by the same factor each sample: no overshoot. |
| `Dsp.RmsFollows` | crates/audio_core/src/codec.rs:343-348 | The level estimate moves towards the frame's level without passing it. |
| `Dsp.EstimateResponds` | crates/audio_core/src/codec.rs:343-348 | The exact response on each side: with the gate open 0.003 of the way up and 0.001 down when capturing, 0.001 and 0.0005 when playing, a tenth of that with it closed, and none for a frame at the estimate. |
| `Dsp.TargetGainNormalises` | crates/audio_core/src/codec.rs:351-355 | Unless clamped, the target gain takes the estimated level to the target level. |
| `Dsp.TargetsAimedAt` | crates/audio_core/src/codec.rs:351-355 | Capture aims at 0.12 for levels 0.012 to 1.2, playback at 0.15 for levels 0.025 to 1, and near-silence at gain 1. |
| `Dsp.LimitedBound` | crates/audio_core/src/codec.rs:362-365 | The limiter bounds every sample by 0.95, keeps its sign, and leaves smaller ones alone. |
| `Dsp.MuteRamp.Apply` | crates/audio_core/src/codec.rs:145-170 | Scales the frame sample by sample along the fade; the result is true exactly when the gain was above 1/1000 at some sample. |
| `Dsp.FadesComplete` | crates/audio_core/src/codec.rs:145-170 | Whatever the frame lengths, a fade ends exactly at its target after 240 samples (96 for an opening gate), and stays there. |
| `Dsp.FadesTakeAllTheirSamples` | crates/audio_core/src/codec.rs:125 | The bounds 240 and 96 are exact: one sample earlier a full fade, up or down, is not complete. |
| `Dsp.RampDistance` | crates/audio_core/src/codec.rs:155-163 | After n samples at most 1 - n * step of the way is left, and the gain stays in 0..1. |
| `Dsp.NoiseGate.Process` | crates/audio_core/src/codec.rs:49-90 | The method computes the gate's step and, in reachable states, returns whether the gate is open. |
| `Dsp.NoiseGate.ApplyGain` | crates/audio_core/src/codec.rs:95-115 | Scales the frame along the attack or release fade. |
| `Dsp.OpenIffRecentlyLoud` | crates/audio_core/src/codec.rs:49-90 | After any run the gate is open if and only if voice detection is off or one of the last six frames seen with it on was above the threshold. |
| `Dsp.CalibrationIsTheMean` | crates/audio_core/src/codec.rs:55-68 | The hundredth frame seen with voice detection on sets the floor to the mean energy of the hundred, at least 1/1000. |
| `Dsp.ThresholdRange` | crates/audio_core/src/codec.rs:72-76 | The threshold is six times the floor at sensitivity 0 and one and a half times at 1000, at least 1/1000, and never rises with the sensitivity. |
| `Dsp.ShiftPermutesSixteenBits` | crates/audio_core/src/codec.rs:452-456 | The shift-register step maps nonzero 16-bit words to nonzero 16-bit words and never merges two. |
| `Dsp.ShiftMergesExactly` | crates/audio_core/src/codec.rs:452-456 | On the full 32-bit register the step merges two different words if and only if they differ by 0x16801. |
| `Dsp.ComfortNoise.Fill` | crates/audio_core/src/codec.rs:449-461 | Each sample gets the noise of the next register word, and the register stays a nonzero 16-bit word. |
| `Dsp.NoisyBound` | crates/audio_core/src/codec.rs:457-459 | What is added to any sample is the register word's own noise, at most 0.0015 in magnitude. |
| `Dsp.SoftClipBounds` | crates/audio_core/src/codec.rs:693-703 | The soft clip is odd, the identity up to 1, at least 1 beyond, never above 3/2, and never amplifies. |
| `Dsp.SoftClipOrder` | crates/audio_core/src/codec.rs:693-703 | For any two inputs: order is kept unless both lie on the same side beyond 1 and the product of their excesses over 1 is more than 1; it is lost exactly then. |
| `Dsp.MonotoneExactlyWithinTwo` | crates/audio_core/src/codec.rs:693-703 | The clip is monotone on -b..b if and only if b is at most 2. |
| `ClipPlayback.SoundboardPlayback.Play` | crates/audio_core/src/feedback.rs:397-403 | An index in the soundboard's own list starts that clip at its first sample, whatever list the callback holds; any other index changes nothing. |
| `ClipPlayback.PlayIsHeardIffNoCallbackBetween` | crates/audio_core/src/feedback.rs:397-403 | With the stores of `play` and the loads and store of the callback as steps: a clip starts at its first sample if and only if no callback is between its load and its store of the cursor, or one that leaves the cursor at the first sample. |
| `ClipPlayback.PlayStoresBoth` | crates/audio_core/src/feedback.rs:397-403 | Whatever callbacks do between the two stores of `play`, it leaves its clip's index and the cursor at the first sample. |
| `ClipPlayback.StartedClipIsHeard` | crates/audio_core/src/feedback.rs:437-464 | From then on callbacks of any lengths add the clip's prefix of their total length. |
| `ClipPlayback.SoundboardPlayback.MixInto` | crates/audio_core/src/feedback.rs:437-464 | Adds the clip's next samples onto the buffer and advances the cursor; a clip that is missing resets it. |
| `ClipPlayback.FeedbackPlayback.MixInto` | crates/audio_core/src/feedback.rs:264-293 | The same for the active tone in the chosen style; a tone out of range changes nothing, not even the cursor. |
| `ClipPlayback.PlaybackIsTheClipsPrefix` | crates/audio_core/src/feedback.rs:437-464 | For any sequence of buffer lengths the samples added are the clip's prefix of their total length, each once, and the cursor is idle exactly when the clip has ended. |

## Left out

- Weak memory: threads interleave one atomic step at a time. The code's acquire and release pairs on the ring are what
  justifies this for the samples; nothing here depends on reordering of relaxed accesses.
- The state machines work on values: what they do not capture is the aliasing of the shared cells themselves. The
  ring, the sequence filter and the rate limiter also appear as classes, one thread at a time.
- SpscRingBuffer.SpscRingBuf.Push: the class gives the effect of a call while the other thread is at rest;
  interleaved calls are `SpscSteps`. The energy value computed by `peek_energy` is not modelled, only the window it reads.
- SpscRingBuffer.SpscRingBuf.MixInto: products and sums are over the reals, so f32 rounding is not covered; the same
  goes for everything in `Dsp` and `ClipPlayback`.
- CaptureFraming.CaptureRing.CaptureAll: the processing and encoding between two reads of a frame is not part of the
  loop.
- JitterControl.PeerPlayback.AdaptFromAtomics: the u16 counters wrap as in a release build, where a debug build
  would panic; a check is one step, and the callback appears only through the readings it produces and the flag it
  stores, whose value and time are arbitrary.
- ScreenWire.ScreenSender.SendScreenFrame: transport tokens, byte and packet counters, socket errors and a WebSocket
  send that fails half-way are not modelled.
- ScreenRuns.RelayedChunkParses: the relay is assumed only to add the sender header behind the packet tag;
  its rate checks and fan-out are not modelled.
- ScreenReceiver.Receiver.AbsorbScreenChunk: a poisoned lock (the call then does nothing) and the 64-bit width of the
  counters are not modelled.
- SequenceFilter.LastSequence.SequenceState: the other threads' writes before each compare-exchange are a parameter.
- RateLimiter.Limiter.AtomicRateCheck: the window is read twice with nothing in between; interleaved calls are the state
  machine of the same module.
- OutboundLanes.LossLeadsToDisconnect: the receive loop is reduced to its disconnect branch; messages received, the
  two-second wait at teardown, JSON serialisation and its failure are left out.
- MediaPool.SentIsSubsequenceOfCaptured: what `send_audio` does on the wire is one step that succeeds or fails.
- AdaptiveQuality.Adaptive.RecordFrame: only the frame rates of the presets are kept; sizes, names and JPEG qualities
  do not enter the controller.
- TransportFeedback.PressureMeansLoss: the threshold 0.12 is the rational 3/25 rather than its f32 neighbour; the
  stretching of the capture interval by the pacer's level is not modelled.
- Dsp.GainControl.Process: the square root is a parameter, of which only its sign is used; over f32 it rounds.
- Dsp.NoiseGate.Process: the frame's energy is an argument, as in the code; how its caller measures it is left out.
- ClipPlayback.SoundboardPlayback.MixInto: the class takes `play` and the callback one after the other; their loads and
  stores as interleaved steps are the state machine of the same module. Loading and clearing clips is left out.
- ClipPlayback.FeedbackPlayback.MixInto: the tones are arbitrary clips; their synthesis is left out.
- Equaliser, echo canceller, de-esser, high-pass filter, RNNoise and Opus: floating-point filters or foreign code.
- Message handlers, relay fan-out, persistence, UDP sessions, TLS, capture and encoding of the screen, and the user
  interface: input and output.
- Session states, permissions, identifiers, histograms, presence, link previews and file names.
