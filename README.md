# mt32emu-qt timing and MIDI queue core in Dafny

This project models the part of the mt32emu Qt front-end that moves MIDI
events from the MIDI-receiving thread to the audio-rendering thread and
decides when they sound.

- **`QMidiBuffer`** (`qmidi_buffer.dfy`) is the lock-free queue of MIDI
  events.
  - It lays 16-byte short-message entries, sysex entries (a 16-byte header
    plus the payload rounded up to whole `quint32`s) and 4-byte pad markers
    into a 32768-byte single-reader single-writer ring buffer.
  - The writer batches entries and commits them with `flush`. When the free
    space wraps around, `requestSpace` pads the tail of the ring and
    restarts at offset zero.
  - The reader takes a contiguous chunk with `retieveEvents`, steps through
    it with `nextEvent`, skips pad markers, and releases the bytes with
    `popEvents` or `discardEvents`.
  - The class keeps the C++ fields.
  - Each method is proved to move the state as a value function of
    `MidiQueue` says, for example `State() == Flushed(old(State()))`.
  - Lemmas in `MidiQueue` prove what those functions promise about the
    events queued. The events committed and not yet consumed (`Committed`)
    and those written since the last flush (`Pending`) are both in push
    order. Each operation adds, commits, reveals or removes exactly the
    events it should, and keeps the ring's layout invariant (`Invariant`).
  - `MidiLayout` and `QueueLayout` model the byte layout: little-endian
    fields and entries laid end to end from the read position. Their lemmas
    prove that what the writer stores is what the reader decodes.
- **`AudioStream`** (`audio_driver.dfy`) is the timing engine.
  - It keeps two time-info slots, written by the audio thread and read by
    the MIDI thread.
  - `estimateMIDITimestamp` turns a wall-clock time into a target frame and
    grows the MIDI latency in auto-latency mode when an event comes late.
  - `updateTimeInfo` publishes a new slot. It either asks `ClockSync` for
    the corrected time and drift, or estimates the played frame count and
    the actual sample rate, clamped to within 0.5% of nominal, with a hard
    reset when the estimate is off by more than the MIDI latency.
- **`ClockSync`** (`clock_sync.dfy`) tracks the offset and the drift between
  the rendered-frame clock and the master clock. It averages the offset,
  resets on large jumps and re-estimates the drift periodically.
- **`MasterClock`** (`master_clock.dfy`) covers:
  - the `timespec` conversions;
  - the millisecond count the Windows build sleeps for;
  - the 32-bit multimedia-timer counter extension.
- **`RingBuffers`** (`ring_buffer.dfy`) states the contract `QMidiBuffer`
  relies on from its ring buffer (one byte always stays free). The ring
  buffer's own implementation is not part of this model.
- **`CppArith`** (`cpp_arith.dfy`) holds C++ truncating division and
  `double`-to-integer conversions.

`estimateMIDITimestamp`, called from the MIDI thread, writes
`midiLatencyFrames` when it meets a negative delay in auto-latency mode
(`AudioDriver.cpp:55`), and the model does too.

The buffer's methods require only the arithmetic parts of the invariant they
use: `Bounds`, `WriteSpace`, `Retrievable`, `ChunkWithin` and `Holding`.
`Invariant` implies each of these, through `InvariantWithin` and
`HeldHolding` for the last two. The `…Invariant` lemmas prove that every
operation keeps it.

## Model

| member | source | states |
|---|---|---|
| QMidiBuffers.QMidiBuffer.constructor | mt32emu_qt/src/QMidiBuffer.cpp:59-67 | a new buffer owns a fresh 32768-byte ring, has null read and write pointers and zero counters, and queues no events |
| QMidiBuffers.QMidiBuffer.StoreBytes | mt32emu_qt/src/QMidiBuffer.cpp:88-95 | the bytes are stored at the offset and nothing else in the ring changes; the reader view follows the memory |
| QMidiBuffers.QMidiBuffer.PushShortMessage | mt32emu_qt/src/QMidiBuffer.cpp:69-82 | the new state and the result are those of `PushedShort`: space for a 16-byte entry is requested, and only if it is granted the entry is appended to the pending batch |
| QMidiBuffers.QMidiBuffer.PushSysexMessage | mt32emu_qt/src/QMidiBuffer.cpp:84-100 | the new state and the result are those of `PushedSysex`: space for the header plus the aligned payload is requested, and only if it is granted the entry with its unaligned length and payload is appended |
| QMidiBuffers.QMidiBuffer.AppendEntry | mt32emu_qt/src/QMidiBuffer.cpp:72-80 | the entry's bytes are stored at the write pointer, which moves past the entry; `bytesWritten` rises and `bytesToWrite` falls by the entry size |
| QMidiBuffers.QMidiBuffer.Flush | mt32emu_qt/src/QMidiBuffer.cpp:102-108 | the new state is `Flushed` of the old: nothing happens on a null write pointer, otherwise the written bytes are committed to the ring and the writer's pointer and counters are cleared |
| QMidiBuffers.QMidiBuffer.RequestSpace | mt32emu_qt/src/QMidiBuffer.cpp:179-195 | the new state and the result are those of `SpaceRequested`: it takes a write pointer if there is none, and pads and restarts while the space is too small and not contiguous |
| QMidiBuffers.QMidiBuffer.Restart | mt32emu_qt/src/QMidiBuffer.cpp:187-192 | a pad header is stored at the write pointer, the batch and the rest of the ring are committed, and the writer restarts at offset zero |
| QMidiBuffers.QMidiBuffer.PopEvents | mt32emu_qt/src/QMidiBuffer.cpp:171-177 | the new state is `Popped` of the old: nothing happens on a null read pointer, otherwise the bytes read are released to the writer and the reader's pointer and counters are cleared |
| QMidiBuffers.QMidiBuffer.TakeChunk | mt32emu_qt/src/QMidiBuffer.cpp:111-112 | pops, then holds the ring's readable chunk at the read position |
| QMidiBuffers.QMidiBuffer.SkipChunk | mt32emu_qt/src/QMidiBuffer.cpp:117 | the whole chunk counts as read |
| QMidiBuffers.QMidiBuffer.RetrieveEvents | mt32emu_qt/src/QMidiBuffer.cpp:110-119 | the new state and the result are those of `Retrieved`: it pops and takes the next chunk, answers false on an empty one, and skips a chunk that starts with a pad marker |
| QMidiBuffers.QMidiBuffer.GetEventTimestamp | mt32emu_qt/src/QMidiBuffer.cpp:121-128 | the result is the timestamp of the first committed event |
| QMidiBuffers.QMidiBuffer.GetEventData | mt32emu_qt/src/QMidiBuffer.cpp:130-141 | for a short message, its data and no sysex payload; for a sysex message, its unaligned length and its payload |
| QMidiBuffers.QMidiBuffer.StepEntry | mt32emu_qt/src/QMidiBuffer.cpp:144-158 | the reader moves past the entry at its pointer by the size its header gives |
| QMidiBuffers.QMidiBuffer.NextEvent | mt32emu_qt/src/QMidiBuffer.cpp:143-164 | the new state and the result are those of `Advanced`: it steps past the current entry, skips the rest of the chunk at a pad marker, and retrieves a new chunk when this one is used up |
| QMidiBuffers.QMidiBuffer.DiscardEvents | mt32emu_qt/src/QMidiBuffer.cpp:166-169 | the new state is `Discarded` of the old: the rest of the chunk counts as read, then the reader pops |
| MidiLayout.AlignSysexDataLength | mt32emu_qt/src/QMidiBuffer.cpp:55-57 | the result is a multiple of 4, at least the length and less than the length plus 4 (the least such multiple) |
| MidiLayout.SysexEntrySize | mt32emu_qt/src/QMidiBuffer.cpp:85-86 | a sysex entry takes the header plus the payload, plus less than 4 bytes of padding, and is a whole number of `quint32`s |
| MidiLayout.SysexEntrySizeAsWrittenWraps | mt32emu_qt/src/QMidiBuffer.cpp:86 | the size as the code computes it, truncated to `quint32`, is 16 for a 2^32 - 1 byte payload, less than the header plus the payload |
| MidiLayout.SysexEntrySizeAsWrittenAgrees | mt32emu_qt/src/QMidiBuffer.cpp:86 | whenever the true size fits in 32 bits, the truncated size equals it |
| MidiLayout.EntrySizeAligned | mt32emu_qt/src/QMidiBuffer.cpp:54-57 | appending any entry keeps an offset aligned to `quint32` |
| MidiLayout.Decode32Encode32 | mt32emu_qt/src/QMidiBuffer.cpp:31-35 | decoding the little-endian bytes of a `quint32` field gives the value back |
| MidiLayout.Encode32Decode32 | mt32emu_qt/src/QMidiBuffer.cpp:31-35 | any four bytes are the encoding of the value they decode to |
| MidiLayout.Decode64Encode64 | mt32emu_qt/src/QMidiBuffer.cpp:31-35 | decoding the little-endian bytes of a `quint64` timestamp gives the value back |
| MidiLayout.Encode64Decode64 | mt32emu_qt/src/QMidiBuffer.cpp:31-35 | any eight bytes are the encoding of the value they decode to |
| MidiLayout.EntryBytesFields | mt32emu_qt/src/QMidiBuffer.cpp:72-94 | an entry's bytes hold the event type, the data or the sysex length, the timestamp and the payload at their struct offsets |
| MidiLayout.WriteBytes | mt32emu_qt/src/QMidiBuffer.cpp:94 | storing bytes at an offset puts them there and leaves every other byte unchanged |
| MidiLayout.ItemAtEntryBytes | mt32emu_qt/src/QMidiBuffer.cpp:69-100 | what a push stores at an offset is read back from that offset as the same event, with the size the push reserved |
| MidiLayout.ReadAtEntry | mt32emu_qt/src/QMidiBuffer.cpp:69-100 | after an entry is stored, the reader view at its offset holds that entry |
| MidiLayout.ItemAtPadHeader | mt32emu_qt/src/QMidiBuffer.cpp:189 | a stored pad header is read back as a pad marker |
| MidiLayout.ItemAtDecoded | mt32emu_qt/src/QMidiBuffer.cpp:121-158 | an item read from memory decodes as the getters decode it: the pad type marks a pad, the sysex type a sysex entry, and the fields, the payload and the entry size are where the getters and `nextEvent` find them |
| MidiLayout.EntrySizeAtAligned | mt32emu_qt/src/QMidiBuffer.cpp:146-155 | the entry size `nextEvent` computes is always a whole number of `quint32`s |
| MidiLayout.ItemAtWriteFrame | mt32emu_qt/src/QMidiBuffer.cpp:94 | a store that does not overlap an item leaves that item as it was read |
| MidiLayout.LaidBoundary | mt32emu_qt/src/QMidiBuffer.cpp:112-118 | no laid run of items straddles the end of the buffer: a run that reaches it splits there into the items before the end and the rest laid from offset zero |
| MidiLayout.LaidFrame | mt32emu_qt/src/QMidiBuffer.cpp:88-95 | stores beyond the end of a laid run and before the ring comes back round leave that run as it was |
| MidiLayout.EventsOfSplit | mt32emu_qt/src/QMidiBuffer.cpp:112 | splitting a run of items splits its events in order |
| QueueLayout.LayingFlush | mt32emu_qt/src/QMidiBuffer.cpp:104 | committing the batch moves its items from pending to the committed runs, keeping the layout |
| QueueLayout.LayingPop | mt32emu_qt/src/QMidiBuffer.cpp:173 | releasing the bytes read keeps the layout of the items not consumed |
| QueueLayout.LayingStep | mt32emu_qt/src/QMidiBuffer.cpp:156-158 | stepping past the first entry of the chunk keeps the layout of the rest |
| QueueLayout.PadChunk | mt32emu_qt/src/QMidiBuffer.cpp:116-117 | a chunk that starts with a pad marker holds nothing else |
| QueueLayout.LayingChunk | mt32emu_qt/src/QMidiBuffer.cpp:112 | taking the readable chunk keeps the layout and the committed events in order; the chunk holds items exactly when it holds bytes |
| QueueLayout.LayingPush | mt32emu_qt/src/QMidiBuffer.cpp:88-98 | storing an entry at the write pointer appends it to the pending items and keeps the layout |
| RingBuffers.FreeSpace | mt32emu_qt/src/QMidiBuffer.cpp:181 | the writer is offered all the free space but one byte when it is contiguous, otherwise the part up to the end of the buffer; contiguous exactly when the reader is ahead of the writer or at offset zero |
| RingBuffers.Readable | mt32emu_qt/src/QMidiBuffer.cpp:112 | the reader is offered all the bytes in use when they do not wrap, otherwise those up to the end of the buffer |
| RingBuffers.RingBuffer.constructor | mt32emu_qt/src/QMidiBuffer.cpp:60 | a new ring of 32768 bytes is empty |
| RingBuffers.RingBuffer.WritePointer | mt32emu_qt/src/QMidiBuffer.cpp:181 | returns the write position and the space `FreeSpace` offers |
| RingBuffers.RingBuffer.AdvanceWritePointer | mt32emu_qt/src/QMidiBuffer.cpp:104 | committing n bytes moves the write position on by n, modulo the size, and adds n to the bytes in use |
| RingBuffers.RingBuffer.ReadPointer | mt32emu_qt/src/QMidiBuffer.cpp:112 | returns the read position and the bytes `Readable` offers |
| RingBuffers.RingBuffer.AdvanceReadPointer | mt32emu_qt/src/QMidiBuffer.cpp:173 | releasing n bytes moves the read position on by n, modulo the size, and removes n from the bytes in use |
| MidiQueue.EmptyInvariant | mt32emu_qt/src/QMidiBuffer.cpp:59-67 | a new buffer satisfies the invariant |
| MidiQueue.EmptyQueued | mt32emu_qt/src/QMidiBuffer.cpp:59-67 | a new buffer queues no events |
| MidiQueue.InvariantWithin | mt32emu_qt/src/QMidiBuffer.cpp:166-169 | under the invariant the reader's chunk lies within the bytes in use, which is what `discardEvents` needs |
| MidiQueue.FlushedInvariant | mt32emu_qt/src/QMidiBuffer.cpp:102-108 | a flush keeps the invariant |
| MidiQueue.FlushedEvents | mt32emu_qt/src/QMidiBuffer.cpp:102-108 | a flush appends the pending events to the committed ones and leaves none pending |
| MidiQueue.WriteTakenInvariant | mt32emu_qt/src/QMidiBuffer.cpp:180-182 | taking a write pointer keeps the invariant |
| MidiQueue.PaddedEvents | mt32emu_qt/src/QMidiBuffer.cpp:189 | writing the pad header changes no event queued |
| MidiQueue.RestartedInvariant | mt32emu_qt/src/QMidiBuffer.cpp:187-192 | padding and restarting keeps the invariant |
| MidiQueue.RestartedContiguous | mt32emu_qt/src/QMidiBuffer.cpp:187-192 | after padding and restarting, the writer is at offset zero and its free space is contiguous, so the loop runs at most once more |
| MidiQueue.RestartedQueued | mt32emu_qt/src/QMidiBuffer.cpp:187-192 | padding and restarting keeps the events queued, in order |
| MidiQueue.SpaceFound | mt32emu_qt/src/QMidiBuffer.cpp:183-194 | on success the space holds the event, and also a pad header after it unless the space is contiguous |
| MidiQueue.SpaceFoundFails | mt32emu_qt/src/QMidiBuffer.cpp:184 | the loop answers false only for contiguous space too small for the event |
| MidiQueue.SpaceRequested | mt32emu_qt/src/QMidiBuffer.cpp:179-195 | after the request there is a write pointer; on success the space holds the event, and also a pad header after it unless the space is contiguous |
| MidiQueue.SpaceRequestedInvariant | mt32emu_qt/src/QMidiBuffer.cpp:179-195 | a space request keeps the invariant |
| MidiQueue.SpaceRequestedFails | mt32emu_qt/src/QMidiBuffer.cpp:179-195 | a request fails only when the space is contiguous and smaller than the event; space that is not contiguous is padded instead |
| MidiQueue.SpaceRequestedQueued | mt32emu_qt/src/QMidiBuffer.cpp:179-195 | a space request keeps the events queued, in order |
| MidiQueue.SpaceRequestedKeepsReader | mt32emu_qt/src/QMidiBuffer.cpp:179-195 | a space request does not touch the reader's pointer and counters |
| MidiQueue.PutEvents | mt32emu_qt/src/QMidiBuffer.cpp:72-80 | storing an entry appends its event to the pending ones and leaves the committed ones unchanged |
| MidiQueue.PutQueued | mt32emu_qt/src/QMidiBuffer.cpp:72-80 | storing an entry appends its event to the queue |
| MidiQueue.PushShortPromise | mt32emu_qt/src/QMidiBuffer.cpp:69-82 | a short-message push keeps the invariant, queues the message behind the queued events exactly when it answers true, and answers false only when the free space is contiguous and smaller than 16 bytes |
| MidiQueue.PushSysexPromise | mt32emu_qt/src/QMidiBuffer.cpp:84-100 | a sysex push keeps the invariant, queues the message behind the queued events exactly when it answers true, and answers false only when the free space is contiguous and smaller than the header plus the aligned payload |
| MidiQueue.PushInvariant | mt32emu_qt/src/QMidiBuffer.cpp:69-100 | a push keeps the invariant and leaves a write pointer |
| MidiQueue.PushQueued | mt32emu_qt/src/QMidiBuffer.cpp:69-100 | a successful push appends its event to the queue, and a failed one leaves the queue as it was |
| MidiQueue.PushFails | mt32emu_qt/src/QMidiBuffer.cpp:71 | a push fails only when the contiguous space is smaller than the entry |
| MidiQueue.PushAdvances | mt32emu_qt/src/QMidiBuffer.cpp:79-80 | a successful push raises `bytesWritten` and lowers `bytesToWrite` by the entry size |
| MidiQueue.PoppedInvariant | mt32emu_qt/src/QMidiBuffer.cpp:171-177 | a pop keeps the invariant |
| MidiQueue.PoppedEvents | mt32emu_qt/src/QMidiBuffer.cpp:171-177 | a pop keeps the committed events |
| MidiQueue.PoppedDistance | mt32emu_qt/src/QMidiBuffer.cpp:173 | a pop removes the bytes read from the bytes in use |
| MidiQueue.ChunkTakenEvents | mt32emu_qt/src/QMidiBuffer.cpp:112-113 | taking a chunk keeps the committed events; an empty chunk means none are committed |
| MidiQueue.ChunkHead | mt32emu_qt/src/QMidiBuffer.cpp:116 | a non-empty chunk starts with an item, which is a pad marker exactly when its header has the pad type |
| MidiQueue.ChunkPad | mt32emu_qt/src/QMidiBuffer.cpp:116-117 | a chunk that starts with a pad marker holds no events |
| MidiQueue.SkippedEvents | mt32emu_qt/src/QMidiBuffer.cpp:117 | skipping the chunk drops exactly the chunk's events from the front of the committed ones |
| MidiQueue.RetrieveCursors | mt32emu_qt/src/QMidiBuffer.cpp:110-118 | a pad chunk lies within the bytes in use and skipping it leaves fewer unread bytes, so the recursion ends |
| MidiQueue.TakenFound | mt32emu_qt/src/QMidiBuffer.cpp:113-116 | an empty chunk means no committed events; a non-empty chunk that does not start with a pad marker means some |
| MidiQueue.RetrievedInvariant | mt32emu_qt/src/QMidiBuffer.cpp:110-119 | retrieving keeps the invariant |
| MidiQueue.RetrievedFound | mt32emu_qt/src/QMidiBuffer.cpp:110-119 | retrieving answers true exactly when an event is committed, and then the reader holds an entry and never a pad marker |
| MidiQueue.RetrievedEvents | mt32emu_qt/src/QMidiBuffer.cpp:110-119 | retrieving keeps the committed events in order |
| MidiQueue.RetrievedKeepsWriter | mt32emu_qt/src/QMidiBuffer.cpp:110-119 | retrieving does not touch the writer's pointer and counters |
| MidiQueue.HeldEvent | mt32emu_qt/src/QMidiBuffer.cpp:121-141 | the entry at the read pointer is the first committed event |
| MidiQueue.HeldHolding | mt32emu_qt/src/QMidiBuffer.cpp:143-158 | under the invariant, a reader holding an event finds an entry at its pointer whose size fits the chunk, which is what `nextEvent` needs |
| MidiQueue.SteppedEvents | mt32emu_qt/src/QMidiBuffer.cpp:143-158 | stepping past the entry drops the first committed event |
| MidiQueue.AdvancedInvariant | mt32emu_qt/src/QMidiBuffer.cpp:143-164 | advancing keeps the invariant |
| MidiQueue.AdvancedFound | mt32emu_qt/src/QMidiBuffer.cpp:143-164 | advancing answers true exactly when another event is committed, and then the reader holds an entry and never a pad marker |
| MidiQueue.AdvancedEvents | mt32emu_qt/src/QMidiBuffer.cpp:143-164 | advancing drops exactly the first committed event |
| MidiQueue.AdvancedKeepsWriter | mt32emu_qt/src/QMidiBuffer.cpp:143-164 | advancing does not touch the writer's pointer and counters |
| MidiQueue.DiscardedInvariant | mt32emu_qt/src/QMidiBuffer.cpp:166-169 | discarding keeps the invariant and leaves a null read pointer |
| MidiQueue.DiscardedEvents | mt32emu_qt/src/QMidiBuffer.cpp:166-169 | discarding drops exactly the events left in the chunk from the front of the committed ones |
| AudioDriver.LatencyFrames | mt32emu_qt/src/audiodrv/AudioDriver.cpp:25-26 | without 32-bit wrap-around, the result is the whole number of frames in the latency |
| AudioDriver.AudioStream.constructor | mt32emu_qt/src/audiodrv/AudioDriver.cpp:22-33 | latencies are converted to frames, a clock-sync tracker exists exactly when advanced timing is off, and both slots start at the clock reading, frame 0 and the nominal rate |
| AudioDriver.TargetFrameMonotonic | mt32emu_qt/src/audiodrv/AudioDriver.cpp:49-50 | from the same slot, a later MIDI time never gets an earlier target frame |
| AudioDriver.TargetFrameExample | mt32emu_qt/src/audiodrv/AudioDriver.cpp:49-50 | at 48000 Hz with 480 frames of latency, an event 5 ms after a baseline at frame 0 gets frame 720 |
| AudioDriver.AudioStream.EstimateMidiTimestamp | mt32emu_qt/src/audiodrv/AudioDriver.cpp:42-61 | the result is the target frame from the active slot, or from the other slot when the MIDI time precedes the active baseline; a late event in auto-latency mode grows the latency by the delay, modulo 2^32, and resets the clock-sync parameters; otherwise nothing changes |
| AudioDriver.ResetThresholdNanos | mt32emu_qt/src/audiodrv/AudioDriver.cpp:134-135 | the threshold is the nanoseconds of the frames at the nominal rate, truncated |
| AudioDriver.AudioStream.UpdateResetPeriod | mt32emu_qt/src/audiodrv/AudioDriver.cpp:132-137 | with a tracker, its emergency threshold becomes the nanoseconds of the larger latency and its period ten times that, and its tracking is untouched |
| AudioDriver.AudioStream.Debounced | mt32emu_qt/src/audiodrv/AudioDriver.cpp:68-75 | an update that is not debounced comes no earlier than the active baseline |
| AudioDriver.ClampRate | mt32emu_qt/src/audiodrv/AudioDriver.cpp:111-117 | the rate is within 0.5% of nominal, is kept when already there, and is otherwise clamped to the bound it crossed |
| AudioDriver.Extrapolated | mt32emu_qt/src/audiodrv/AudioDriver.cpp:86-89 | the extrapolated played-frame count never falls below the slot's own |
| AudioDriver.ExtrapolatedNearest | mt32emu_qt/src/audiodrv/AudioDriver.cpp:86-89 | the extrapolation is within half a frame of the exact projection |
| AudioDriver.InternalUpdate | mt32emu_qt/src/audiodrv/AudioDriver.cpp:84-120 | a hard reset happens exactly when the estimate is more than the latency away from the extrapolation, and re-baselines at the estimate with the nominal rate; otherwise the extrapolated count, which never goes back, is published with the clamped rate; the rate is always within bounds and the baseline moves forward |
| AudioDriver.AudioStream.PublishSynced | mt32emu_qt/src/audiodrv/AudioDriver.cpp:76-81 | the inactive slot gets the tracker's answer, the rendered count and the nominal rate times the new drift, the tracker is left as `Sync` leaves it, and that slot becomes the active one |
| AudioDriver.AudioStream.PublishEstimated | mt32emu_qt/src/audiodrv/AudioDriver.cpp:82-125 | the inactive slot gets `InternalUpdate` of the active slot at the estimated play position, the old active slot is kept, and the index flips |
| AudioDriver.AudioStream.UpdateTimeInfo | mt32emu_qt/src/audiodrv/AudioDriver.cpp:63-126 | a debounced update changes nothing; otherwise the inactive slot gets the clock-sync answer or the internal estimate, the old active slot is kept, and the index flips; with a tracker, the tracker is left as `Sync` leaves it, and a pending reset publishes exactly the nominal rate |
| AudioDriver.AudioStream.IsAutoLatencyMode | mt32emu_qt/src/audiodrv/AudioDriver.cpp:128-130 | in auto-latency mode the configured MIDI latency converts to zero frames |
| AudioDriver.AudioStream.RenderedNanos | mt32emu_qt/src/audiodrv/AudioDriver.cpp:78 | the rendered position in nanoseconds at the nominal rate, truncated toward zero: non-negative and within one nanosecond below the exact value |
| AudioDriver.TargetFrame | mt32emu_qt/src/audiodrv/AudioDriver.cpp:49-50 | the target frame is the slot's count plus the latency plus the frames elapsed at the slot's rate, rounded down; for a MIDI time at or after the baseline at a non-negative rate it is at least the count plus the latency |
| ClockSync.SumAppend | mt32emu_qt/src/ClockSync.cpp:56-58 | recording one more offset adds it to the sum |
| ClockSync.ClockSync.constructor | mt32emu_qt/src/ClockSync.cpp:22-25 | a new tracker resets on its first sync, rebases every 2 s and resets on a jump of more than 200 ms |
| ClockSync.ClockSync.ScheduleReset | mt32emu_qt/src/ClockSync.cpp:27-29 | the next sync resets |
| ClockSync.ClockSync.SetParams | mt32emu_qt/src/ClockSync.cpp:35-38 | the first argument becomes the emergency threshold and the second the rebase period |
| ClockSync.ClockSync.ResetBaseline | mt32emu_qt/src/ClockSync.cpp:41-50 | both clocks are re-baselined at now with their difference as the base offset, zero drift and no recorded offsets |
| ClockSync.ClockSync.Rebase | mt32emu_qt/src/ClockSync.cpp:63-74 | the drift becomes the distance from the extrapolated offset to the averaged one per nanosecond of the period, and the baseline moves to now |
| ClockSync.ClockSync.GetDrift | mt32emu_qt/src/ClockSync.cpp:31-33 | the multiplicative drift is exactly 1 when no relative drift is recorded |
| ClockSync.ClockSync.RecordOffset | mt32emu_qt/src/ClockSync.cpp:52-59 | the offset difference from the base offset is recorded (sum and count stay the sum and count of the recorded offsets), and the offset extrapolated with the current drift is answered |
| ClockSync.ClockSync.Sync | mt32emu_qt/src/ClockSync.cpp:40-76 | a pending reset answers the master time and re-baselines with drift 1; otherwise the answer is the external time less the extrapolated offset, the offset is recorded (sum and count stay the sum and count of the recorded offsets), a jump beyond the threshold schedules a reset, and after the period the drift is re-estimated from the average |
| MasterClock.NanosToTimespec | mt32emu_qt/src/MasterClock.cpp:31-34 | the timespec converts back to the same nanoseconds; it is normalized for non-negative input, and for negative input both parts are non-positive with the nanosecond part above -1 s |
| MasterClock.TimespecToNanos | mt32emu_qt/src/MasterClock.cpp:27-29 | a normalized timespec converts to a non-negative count within its whole second |
| MasterClock.TimespecRoundTrip | mt32emu_qt/src/MasterClock.cpp:27-34 | a normalized timespec converted to nanoseconds and back is unchanged |
| MasterClock.TimespecOrder | mt32emu_qt/src/MasterClock.cpp:27-29 | the nanosecond conversion orders normalized timespecs lexicographically |
| MasterClock.SleepMillis | mt32emu_qt/src/MasterClock.cpp:73 | the sleep is at least 1 ms, and for at least 1 ms (below the 32-bit limit) it is the whole milliseconds |
| MasterClock.ExtendCounter | mt32emu_qt/src/MasterClock.cpp:96-99 | the low word takes the reading, and the high word rises by one exactly when the reading is below the old low word |
| MasterClock.ExtendCounterAdvance | mt32emu_qt/src/MasterClock.cpp:96-99 | the extended counter never goes back and advances by less than 2^32 |
| MasterClock.ExtendCounterTracksTime | mt32emu_qt/src/MasterClock.cpp:95-100 | read at least once every 2^32 ms, the extended counter equals the true elapsed count |
| MasterClock.MultimediaTimer.constructor | mt32emu_qt/src/MasterClock.cpp:127 | the start time is the first multimedia-timer reading and the counter starts at zero |
| MasterClock.MultimediaTimer.ElapsedNanos | mt32emu_qt/src/MasterClock.cpp:100 | the fallback clock counts whole milliseconds in nanoseconds and is non-negative once the counter has reached the start time |
| MasterClock.MultimediaTimer.GetClockNanos | mt32emu_qt/src/MasterClock.cpp:95-100 | the counter is extended by the reading and the result is the elapsed time since `init` in nanoseconds, never less than at the previous call |

## Left out

- The ring buffer (`QRingBuffer`) is not part of this model. `RingBuffers`
  states the contract `QMidiBuffer` relies on: one byte always stays free,
  and the free space is offered up to the end of the buffer when it wraps.
  That convention is an assumption.
- The entry layout takes a 4-byte `MidiEventType`, little-endian fields
  and the struct sizes of a common ABI: 16, 16 and 4 bytes.
- `getEventData` hands out a pointer into the ring. The model returns the
  payload bytes instead.
- The reader and the writer of `QMidiBuffer`, and the MIDI and audio
  threads of `AudioStream`, run concurrently in the original. The model runs
  each call to completion. Atomics and memory ordering are not modelled.
- `MasterClock` leaves out:
  - the operating-system calls (`clock_gettime`, `clock_nanosleep`,
    `Sleep`, `timeGetTime`, `timeGetDevCaps`, `QueryPerformanceCounter`);
    their readings are parameters of the model;
  - the high-resolution-timer branch of `getClockNanos`, which scales by a
    floating-point factor;
  - `sleepUntilClockNanos`;
  - `init` apart from the multimedia timer's start reading, and `cleanup`.
- `qDebug` logging, `QSettings`, `QSynth` and the `AudioStream` destructor
  are left out.
- `double` arithmetic is real arithmetic, with no rounding. Conversions
  from `double` to integers truncate as C++ does.
- 64-bit overflow of nanosecond and frame counts is not modelled. The
  32-bit wrap of the latency frame counts is modelled.
- AudioDriver.TargetFrame: converting a negative frame offset to `quint64`
  is undefined in C++. The model floors it.
- AudioDriver.AudioStream.UpdateTimeInfo has three requirements the code does
  not check:
  - With internal estimation, the audio buffer must not hold more frames
    than were rendered, because `quint64` would wrap.
  - With internal estimation, the measured time must differ from the active
    baseline, because otherwise the rate estimate is 0/0.
  - With a clock-sync tracker, a rebase must not divide by a zero period,
    because otherwise the drift is infinite or NaN.
- ClockSync.ClockSync.Sync inherits the same non-zero-period requirement
  through `RebaseDefined`.
- QMidiBuffers.QMidiBuffer methods require only the arithmetic parts of the
  invariant, not the invariant itself. The `MidiQueue` lemmas prove that the
  invariant is kept.
- QMidiBuffers.QMidiBuffer.PushSysexMessage requests the untruncated entry
  size `SysexEntrySize`, not the `quint32`-truncated size of
  `QMidiBuffer.cpp:86`. For payloads of 2^32 - 19 bytes or more, the model's
  push fails where the C++ code may be granted too little space (see
  Findings).
- QMidiBuffers.QMidiBuffer.GetEventTimestamp and GetEventData require that
  the reader holds an event. The C++ code otherwise dereferences a null or
  stale pointer.
- QMidiBuffers.QMidiBuffer.NextEvent has the same requirement.

## Findings

| source | as written | input that shows it | evidently intended | confidence | as-written member | corrected member |
|---|---|---|---|---|---|---|
| mt32emu_qt/src/QMidiBuffer.cpp:86 | `entrySize = quint32(sizeof(SysexMessageHeader) + alignedDataLength)` truncates to 32 bits, so for a payload of at least 2^32 - 19 bytes the requested size is smaller than the payload, and `memcpy` would write past the space granted | `dataLength` = 2^32 - 1 gives an aligned length of 2^32 and an entry size of 16 | the entry size is the header plus the aligned payload, as computed without truncation | not executed | MidiLayout.SysexEntrySizeAsWrittenWraps | MidiLayout.SysexEntrySize |
