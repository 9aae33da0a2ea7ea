/** The state of a `QMidiBuffer` and its ring as a value, and each of the
    buffer's operations as a function from the state before to the state after
    it. The lemmas here prove what the operations promise about the events
    queued: the abstract view is a pair of event sequences, `Committed`, the
    events committed to the ring and not yet consumed, and `Pending`, the
    events written since the last flush, both in push order. */
module MidiQueue {
  import opened CppArith
  import opened MidiLayout
  import opened RingBuffers
  import opened QueueLayout

  /** The ring's memory and positions, the writer's and the reader's cursors
      (a `None` pointer is a null pointer), where the queued items lie, and
      what the reader finds at each offset of memory. */
  datatype BufferState = BufferState(
    memory: seq<Byte>, readPosition: nat, writePosition: nat,
    writePointer: Option<nat>, bytesWritten: nat, bytesToWrite: nat, freeSpaceContiguous: bool,
    readPointer: Option<nat>, bytesRead: nat, bytesToRead: nat,
    runs: Runs, reader: Reader)

  function Committed(s: BufferState): seq<MidiEvent> {
    EventsOf(s.runs.chunk) + EventsOf(s.runs.rest)
  }

  function Pending(s: BufferState): seq<MidiEvent> {
    EventsOf(s.runs.pending)
  }

  /** The events left in the reader's chunk. */
  function ChunkEvents(s: BufferState): seq<MidiEvent> {
    EventsOf(s.runs.chunk)
  }

  /** Every event queued, in push order. */
  function Queued(s: BufferState): seq<MidiEvent> {
    Committed(s) + Pending(s)
  }

  /** The bookkeeping whatever the state of the two cursors: commits keep
      the write position aligned, the bytes written and read stay within the
      ring, and the runs are laid from the read position on. */
  ghost predicate Layout(s: BufferState) {
    Bounds(s) && Placement(s)
  }

  /** The counters: the positions and the counts of bytes written and read
      are whole numbers of `quint32`s, and the bytes written and read stay
      within the ring. */
  ghost predicate Bounds(s: BufferState) {
    && |s.memory| == BUFFER_SIZE && s.readPosition < BUFFER_SIZE && s.writePosition < BUFFER_SIZE
    && s.writePosition % QUINT32_SIZE == 0 && s.bytesWritten % QUINT32_SIZE == 0
    && (s.writePointer.None? ==> s.bytesWritten == 0)
    && s.writePosition + s.bytesWritten <= BUFFER_SIZE
    && Distance(s.readPosition, s.writePosition) + s.bytesWritten < BUFFER_SIZE
    && (s.readPointer.None? ==> s.bytesRead == 0)
    && s.readPosition + s.bytesRead <= BUFFER_SIZE
    && s.readPosition % QUINT32_SIZE == 0 && s.bytesRead % QUINT32_SIZE == 0
    && s.bytesToRead % QUINT32_SIZE == 0
  }

  /** The reader view matches the memory, and the runs are laid from the
      read position on. */
  ghost predicate Placement(s: BufferState) {
    && Reads(s.reader, s.memory)
    && Laying(s.reader, s.readPosition, s.writePosition, s.bytesRead, s.bytesWritten, s.runs)
  }

  /** The writer's space: without a write pointer there is none; with one,
      the space from the pointer on is free, and when the free space wraps
      around it runs to the end of the buffer and holds a pad header. */
  ghost predicate WriteSpace(s: BufferState)
    requires s.readPosition < BUFFER_SIZE && s.writePosition < BUFFER_SIZE
  {
    && (s.writePointer.None? ==> s.bytesToWrite == 0)
    && (s.writePointer.Some? ==>
          && s.writePointer.value == s.writePosition + s.bytesWritten
          && s.writePosition + s.bytesWritten + s.bytesToWrite <= BUFFER_SIZE
          && Distance(s.readPosition, s.writePosition) + s.bytesWritten + s.bytesToWrite < BUFFER_SIZE
          && (!s.freeSpaceContiguous ==>
                && s.writePosition + s.bytesWritten + s.bytesToWrite == BUFFER_SIZE
                && PAD_HEADER_SIZE <= s.bytesToWrite))
  }

  /** The reader's chunk: none without a read pointer; with one, the chunk
      starts at the pointer, is `bytesToRead` long, does not run past the end
      of the buffer, and starts with an entry unless it is used up. */
  ghost predicate ReadChunk(s: BufferState) {
    && (s.readPointer.None? ==> s.bytesToRead == 0 && s.runs.chunk == [] && s.runs.chunkLength == 0)
    && (s.readPointer.Some? ==>
          && s.readPointer.value == s.readPosition + s.bytesRead
          && s.bytesToRead == s.runs.chunkLength
          && s.readPosition + s.bytesRead + s.bytesToRead <= BUFFER_SIZE
          && (s.runs.chunk != [] ==> s.runs.chunk[0].Entry?))
  }

  /** The invariant but for the reader's chunk. */
  ghost predicate Consistent(s: BufferState) {
    Layout(s) && WriteSpace(s)
  }

  /** The invariant between calls from outside. */
  ghost predicate Invariant(s: BufferState) {
    Consistent(s) && ReadChunk(s)
  }

  /** The reader holds a chunk at its pointer, which may start with a pad
      marker. */
  ghost predicate Reading(s: BufferState) {
    && Consistent(s) && s.readPointer == Some(s.readPosition + s.bytesRead)
    && s.bytesToRead == s.runs.chunkLength
    && s.readPosition + s.bytesRead + s.bytesToRead <= BUFFER_SIZE
  }

  /** What `retieveEvents` needs of the reader: the counters, and no more
      bytes counted as read than are in use. */
  ghost predicate Retrievable(s: BufferState) {
    Bounds(s) && s.bytesRead <= Distance(s.readPosition, s.writePosition)
  }

  /** The reader's chunk lies within the bytes in use, from its pointer on;
      without a pointer there is none. */
  ghost predicate ChunkWithin(s: BufferState) {
    && Bounds(s) && s.bytesRead + s.bytesToRead <= Distance(s.readPosition, s.writePosition)
    && (s.readPointer.None? ==> s.bytesToRead == 0)
    && (s.readPointer.Some? ==>
          && s.readPointer.value == s.readPosition + s.bytesRead
          && s.readPosition + s.bytesRead + s.bytesToRead <= BUFFER_SIZE)
  }

  /** What `nextEvent` needs of the reader: it holds an entry, whose header
      gives a size within the chunk. */
  ghost predicate Holding(s: BufferState) {
    && ChunkWithin(s) && HasEvent(s) && s.runs.chunk != [] && s.bytesToRead == s.runs.chunkLength
    && s.readPointer.value + SHORT_MESSAGE_ENTRY_SIZE <= |s.memory|
    && EntrySizeAt(s.memory, s.readPointer.value) <= s.bytesToRead
  }

  /** The invariant keeps the reader's chunk within the bytes in use. */
  lemma InvariantWithin(s: BufferState)
    requires Invariant(s)
    ensures ChunkWithin(s)
  {
  }

  /** The reader holds an event: the last `retieveEvents` or `nextEvent`
      returned true. */
  predicate HasEvent(s: BufferState) {
    s.readPointer.Some? && 0 < s.bytesToRead
  }

  /** An operation of the reader leaves the memory, the writer's cursors and
      the pending items as they were. */
  predicate KeepsWriter(s: BufferState, t: BufferState) {
    WriterOf(t) == WriterOf(s)
  }

  /** The memory, the writer's cursors and the pending items. */
  function WriterOf(s: BufferState): (seq<Byte>, nat, Option<nat>, nat, nat, bool, seq<Item>) {
    (s.memory, s.writePosition, s.writePointer, s.bytesWritten, s.bytesToWrite, s.freeSpaceContiguous,
     s.runs.pending)
  }

  /** An operation of the writer leaves the read position, the reader's
      cursors and its chunk as they were. */
  predicate KeepsReader(s: BufferState, t: BufferState) {
    && t.readPosition == s.readPosition && t.readPointer == s.readPointer
    && t.bytesRead == s.bytesRead && t.bytesToRead == s.bytesToRead
    && t.runs.chunk == s.runs.chunk
  }

  /** A new buffer over the ring's memory: both positions at the start,
      neither cursor set, nothing queued. */
  function Empty(memory: seq<Byte>): BufferState {
    BufferState(memory, 0, 0, None, 0, 0, false, None, 0, 0, Runs([], 0, [], []), ReadAt(memory))
  }

  lemma EmptyInvariant(memory: seq<Byte>)
    requires |memory| == BUFFER_SIZE
    ensures Invariant(Empty(memory))
  {
    ReadAtReads(memory);
  }

  lemma EmptyQueued(memory: seq<Byte>)
    ensures Queued(Empty(memory)) == []
  {
  }

  // The writer.

  /** `flush`: with a write pointer, the bytes written are committed to the
      ring and the writer drops its pointer; without one nothing happens. */
  function Flushed(s: BufferState): BufferState
    requires Bounds(s)
  {
    if s.writePointer.None? then s
    else s.(writePosition := Next(s.writePosition, s.bytesWritten), writePointer := None,
            bytesWritten := 0, bytesToWrite := 0,
            runs := s.runs.(rest := s.runs.rest + s.runs.pending, pending := []))
  }

  lemma FlushedInvariant(s: BufferState)
    requires Layout(s) && ReadChunk(s) && (s.writePointer.None? ==> s.bytesToWrite == 0)
    ensures Invariant(Flushed(s))
  {
    if s.writePointer.Some? {
      LayingFlush(s.reader, s.readPosition, s.writePosition, s.bytesRead, s.bytesWritten, s.runs);
      NextAligned(s.writePosition, s.bytesWritten);
    }
  }

  /** A flush commits the pending events behind the committed ones; a
      writer without a pointer has none pending. */
  lemma FlushedEvents(s: BufferState)
    requires Bounds(s) && (s.writePointer.None? ==> s.runs.pending == [])
    ensures Committed(Flushed(s)) == Committed(s) + Pending(s) && Pending(Flushed(s)) == []
  {
    if s.writePointer.Some? {
      EventsOfConcat(s.runs.rest, s.runs.pending);
    }
  }

  /** `writePointer = ringBuffer.writePointer(bytesToWrite, freeSpaceContiguous)`
      when the writer has no pointer. */
  function WriteTaken(s: BufferState): BufferState
    requires s.readPosition < BUFFER_SIZE && s.writePosition < BUFFER_SIZE
  {
    var space := FreeSpace(s.readPosition, s.writePosition);
    s.(writePointer := Some(s.writePosition), bytesToWrite := space.bytesFree,
       freeSpaceContiguous := space.contiguous)
  }

  /** The writer takes the free space the ring offers; when it wraps around
      it holds at least a pad header, since the write position is aligned. */
  lemma WriteTakenInvariant(s: BufferState)
    requires Invariant(s) && s.writePointer.None?
    ensures Invariant(WriteTaken(s))
  {
    WriteTakenSpace(s);
    assert Placement(WriteTaken(s)) by {
      assert WriteTaken(s).(writePointer := None, bytesToWrite := 0, freeSpaceContiguous := s.freeSpaceContiguous) == s;
    }
  }

  lemma WriteTakenSpace(s: BufferState)
    requires Bounds(s) && WriteSpace(s) && s.writePointer.None?
    ensures Bounds(WriteTaken(s)) && WriteSpace(WriteTaken(s))
  {
    AlignedTail(s.writePosition, BUFFER_SIZE - s.writePosition);
  }

  /** The pad header stored at the write pointer, and the space up to the
      end of the buffer counted as written. */
  function Padded(s: BufferState): BufferState
    requires |s.memory| == BUFFER_SIZE && s.writePointer.Some?
    requires s.writePointer.value + PAD_HEADER_SIZE <= BUFFER_SIZE
  {
    var memory := WriteBytes(s.memory, s.writePointer.value, PadHeaderBytes());
    s.(memory := memory, reader := ReadAt(memory), bytesWritten := s.bytesWritten + s.bytesToWrite,
       runs := s.runs.(pending := s.runs.pending + [PadMarker]))
  }

  /** The pad header is read back as a pad marker over the buffer's tail,
      which extends the pending run. */
  lemma PaddedPlacement(s: BufferState)
    requires Layout(s) && WriteSpace(s) && s.writePointer.Some? && !s.freeSpaceContiguous
    ensures Placement(Padded(s))
  {
    var q := s.writePointer.value;
    var t := Padded(s);
    ReadAtReads(t.memory);
    LayingWrite(s.reader, s.memory, s.readPosition, s.writePosition, s.bytesRead, s.bytesWritten,
                s.runs, PadHeaderBytes(), t.reader);
    ItemAtPadHeader(s.memory, q);
    assert t.reader[q] == Some(PadMarker);
    LayingAppend(t.reader, s.readPosition, s.writePosition, s.bytesRead, s.bytesWritten, s.runs,
                 PadMarker, s.bytesToWrite);
  }

  /** Padding counts the buffer's tail as written. */
  lemma PaddedBounds(s: BufferState)
    requires Bounds(s) && WriteSpace(s) && s.writePointer.Some? && !s.freeSpaceContiguous
    ensures Bounds(Padded(s))
  {
    AlignedTail(s.writePosition, s.bytesWritten + s.bytesToWrite);
  }

  /** Padding fills the buffer's tail. */
  lemma PaddedLayout(s: BufferState)
    requires Invariant(s) && s.writePointer.Some? && !s.freeSpaceContiguous
    ensures Layout(Padded(s)) && ReadChunk(Padded(s))
  {
    PaddedBounds(s);
    PaddedPlacement(s);
  }

  /** A pad marker holds no event. */
  lemma PaddedEvents(s: BufferState)
    requires |s.memory| == BUFFER_SIZE && s.writePointer.Some?
    requires s.writePointer.value + PAD_HEADER_SIZE <= BUFFER_SIZE
    ensures Committed(Padded(s)) == Committed(s) && Pending(Padded(s)) == Pending(s)
  {
    EventsOfConcat(s.runs.pending, [PadMarker]);
  }

  /** One turn of `requestSpace`'s loop on a space that wraps around: pad,
      flush, and take the free space from the start of the buffer. */
  function Restarted(s: BufferState): BufferState
    requires Bounds(s) && WriteSpace(s) && s.writePointer.Some? && !s.freeSpaceContiguous
  {
    PaddedBounds(s);
    WriteTaken(Flushed(Padded(s)))
  }

  lemma RestartedInvariant(s: BufferState)
    requires Invariant(s) && s.writePointer.Some? && !s.freeSpaceContiguous
    ensures Invariant(Restarted(s))
  {
    PaddedLayout(s);
    FlushedInvariant(Padded(s));
    WriteTakenInvariant(Flushed(Padded(s)));
  }

  /** After a restart the writer is at the start of the buffer, so its free
      space is contiguous. */
  lemma RestartedContiguous(s: BufferState)
    requires Bounds(s) && WriteSpace(s) && s.writePointer.Some? && !s.freeSpaceContiguous
    ensures Restarted(s).writePosition == 0 && Restarted(s).freeSpaceContiguous
    ensures Restarted(s).writePointer.Some?
    ensures Bounds(Restarted(s)) && WriteSpace(Restarted(s))
  {
    PaddedBounds(s);
  }

  /** A restart commits the pending events and queues nothing. */
  lemma RestartedQueued(s: BufferState)
    requires Bounds(s) && WriteSpace(s) && s.writePointer.Some? && !s.freeSpaceContiguous
    ensures Queued(Restarted(s)) == Queued(s)
  {
    PaddedBounds(s);
    PaddedEvents(s);
    FlushedEvents(Padded(s));
  }

  /** `requestSpace`'s loop once the writer holds a pointer. */
  function SpaceFound(s: BufferState, eventLength: nat): (result: (BufferState, bool))
    requires Bounds(s) && WriteSpace(s) && s.writePointer.Some?
    ensures Bounds(result.0) && WriteSpace(result.0) && result.0.writePointer.Some?
    ensures result.1 ==> eventLength <= result.0.bytesToWrite
    ensures result.1 ==> result.0.freeSpaceContiguous || eventLength + PAD_HEADER_SIZE <= result.0.bytesToWrite
    decreases if s.freeSpaceContiguous then 0 else 1
  {
    if eventLength + PAD_HEADER_SIZE <= s.bytesToWrite then (s, true)
    else if s.freeSpaceContiguous then (s, eventLength <= s.bytesToWrite)
    else
      RestartedContiguous(s);
      SpaceFound(Restarted(s), eventLength)
  }

  /** The loop keeps the invariant. */
  lemma {:induction false} SpaceFoundInvariant(s: BufferState, eventLength: nat)
    requires Invariant(s) && s.writePointer.Some?
    ensures Invariant(SpaceFound(s, eventLength).0)
    decreases if s.freeSpaceContiguous then 0 else 1
  {
    if eventLength + PAD_HEADER_SIZE > s.bytesToWrite && !s.freeSpaceContiguous {
      RestartedInvariant(s);
      RestartedContiguous(s);
      SpaceFoundInvariant(Restarted(s), eventLength);
    }
  }

  /** The loop fails only on a contiguous space too small for the event. */
  lemma {:induction false} SpaceFoundFails(s: BufferState, eventLength: nat)
    requires Bounds(s) && WriteSpace(s) && s.writePointer.Some?
    ensures !SpaceFound(s, eventLength).1 ==>
              SpaceFound(s, eventLength).0.freeSpaceContiguous && SpaceFound(s, eventLength).0.bytesToWrite < eventLength
    decreases if s.freeSpaceContiguous then 0 else 1
  {
    if eventLength + PAD_HEADER_SIZE > s.bytesToWrite && !s.freeSpaceContiguous {
      RestartedContiguous(s);
      SpaceFoundFails(Restarted(s), eventLength);
    }
  }

  /** The loop queues no event and drops none. */
  lemma {:induction false} SpaceFoundQueued(s: BufferState, eventLength: nat)
    requires Bounds(s) && WriteSpace(s) && s.writePointer.Some?
    ensures Queued(SpaceFound(s, eventLength).0) == Queued(s)
    decreases if s.freeSpaceContiguous then 0 else 1
  {
    if eventLength + PAD_HEADER_SIZE > s.bytesToWrite && !s.freeSpaceContiguous {
      RestartedContiguous(s);
      RestartedQueued(s);
      SpaceFoundQueued(Restarted(s), eventLength);
    }
  }

  /** The loop leaves the reader alone. */
  lemma {:induction false} SpaceFoundKeepsReader(s: BufferState, eventLength: nat)
    requires Bounds(s) && WriteSpace(s) && s.writePointer.Some?
    ensures KeepsReader(s, SpaceFound(s, eventLength).0)
    decreases if s.freeSpaceContiguous then 0 else 1
  {
    if eventLength + PAD_HEADER_SIZE > s.bytesToWrite && !s.freeSpaceContiguous {
      RestartedContiguous(s);
      SpaceFoundKeepsReader(Restarted(s), eventLength);
    }
  }

  /** `requestSpace`: takes a write pointer if there is none, then looks for
      room for `eventLength` bytes. */
  function SpaceRequested(s: BufferState, eventLength: nat): (result: (BufferState, bool))
    requires Bounds(s) && WriteSpace(s)
    ensures Bounds(result.0) && WriteSpace(result.0) && result.0.writePointer.Some?
    ensures result.1 ==> eventLength <= result.0.bytesToWrite
    ensures result.1 ==> result.0.freeSpaceContiguous || eventLength + PAD_HEADER_SIZE <= result.0.bytesToWrite
  {
    if s.writePointer.None? then
      WriteTakenSpace(s);
      SpaceFound(WriteTaken(s), eventLength)
    else SpaceFound(s, eventLength)
  }

  /** `requestSpace` keeps the invariant. */
  lemma SpaceRequestedInvariant(s: BufferState, eventLength: nat)
    requires Invariant(s)
    ensures Invariant(SpaceRequested(s, eventLength).0)
  {
    if s.writePointer.None? {
      WriteTakenInvariant(s);
      SpaceFoundInvariant(WriteTaken(s), eventLength);
    } else {
      SpaceFoundInvariant(s, eventLength);
    }
  }

  /** `requestSpace` fails only when the space is contiguous and too small
      for the event: a space that wraps around is padded and the writer
      restarts at the beginning instead. */
  lemma SpaceRequestedFails(s: BufferState, eventLength: nat)
    requires Bounds(s) && WriteSpace(s)
    ensures !SpaceRequested(s, eventLength).1 ==>
              SpaceRequested(s, eventLength).0.freeSpaceContiguous && SpaceRequested(s, eventLength).0.bytesToWrite < eventLength
  {
    if s.writePointer.None? {
      WriteTakenSpace(s);
      SpaceFoundFails(WriteTaken(s), eventLength);
    } else {
      SpaceFoundFails(s, eventLength);
    }
  }

  /** `requestSpace` keeps the queued events. */
  lemma SpaceRequestedQueued(s: BufferState, eventLength: nat)
    requires Bounds(s) && WriteSpace(s)
    ensures Queued(SpaceRequested(s, eventLength).0) == Queued(s)
  {
    if s.writePointer.None? {
      WriteTakenSpace(s);
      SpaceFoundQueued(WriteTaken(s), eventLength);
    } else {
      SpaceFoundQueued(s, eventLength);
    }
  }

  lemma SpaceRequestedKeepsReader(s: BufferState, eventLength: nat)
    requires Bounds(s) && WriteSpace(s)
    ensures KeepsReader(s, SpaceRequested(s, eventLength).0)
  {
    if s.writePointer.None? {
      WriteTakenSpace(s);
      SpaceFoundKeepsReader(WriteTaken(s), eventLength);
    } else {
      SpaceFoundKeepsReader(s, eventLength);
    }
  }

  /** The stores of a successful push of an entry: its bytes at the write
      pointer, the pointer moved past the entry, and the bytes written grown
      and the bytes to write shrunk by the entry's size. */
  function Append(s: BufferState, entry: Item, bytes: seq<Byte>): BufferState
    requires |s.memory| == BUFFER_SIZE && s.writePointer.Some? && entry.Entry?
    requires |bytes| <= entry.size && s.writePointer.value + entry.size <= BUFFER_SIZE
    requires entry.size <= s.bytesToWrite
  {
    var q := s.writePointer.value;
    var memory := WriteBytes(s.memory, q, bytes);
    s.(memory := memory, reader := ReadAt(memory), writePointer := Some(q + entry.size),
       bytesWritten := s.bytesWritten + entry.size, bytesToWrite := s.bytesToWrite - entry.size,
       runs := s.runs.(pending := s.runs.pending + [entry]))
  }

  /** The push of event `e`. */
  function Put(s: BufferState, e: MidiEvent): BufferState
    requires |s.memory| == BUFFER_SIZE && s.writePointer.Some?
    requires s.writePointer.value + EntrySize(e) <= BUFFER_SIZE && EntrySize(e) <= s.bytesToWrite
  {
    Append(s, Entry(e, EntrySize(e)), EntryBytes(e))
  }

  /** An entry read back where the pending run ended extends it. */
  lemma AppendPlacement(s: BufferState, entry: Item, bytes: seq<Byte>)
    requires Layout(s) && WriteSpace(s) && s.writePointer.Some? && entry.Entry?
    requires 0 < |bytes| <= entry.size <= s.bytesToWrite
    requires s.writePointer.value < BUFFER_SIZE
    requires ReadAt(WriteBytes(s.memory, s.writePointer.value, bytes))[s.writePointer.value] == Some(entry)
    ensures Placement(Append(s, entry, bytes))
  {
    var t := Append(s, entry, bytes);
    LayingPush(s.reader, s.memory, s.readPosition, s.writePosition, s.bytesRead, s.bytesWritten,
               s.runs, s.writePointer.value, entry, bytes, t.memory, t.reader);
  }



  /** The counters move by the entry's size, which keeps them aligned. */
  lemma AppendBounds(s: BufferState, entry: Item, bytes: seq<Byte>)
    requires Bounds(s) && WriteSpace(s) && ReadChunk(s) && s.writePointer.Some? && entry.Entry?
    requires |bytes| <= entry.size <= s.bytesToWrite && entry.size % QUINT32_SIZE == 0
    requires s.freeSpaceContiguous || entry.size + PAD_HEADER_SIZE <= s.bytesToWrite
    ensures Bounds(Append(s, entry, bytes)) && WriteSpace(Append(s, entry, bytes))
    ensures ReadChunk(Append(s, entry, bytes))
  {
    AlignedSum(s.bytesWritten, entry.size);
  }

  /** A put in a space that holds the entry, and a pad header after it
      unless the space is contiguous, keeps the invariant. */
  lemma PutInvariant(s: BufferState, e: MidiEvent)
    requires Invariant(s) && s.writePointer.Some? && EntrySize(e) <= s.bytesToWrite
    requires s.freeSpaceContiguous || EntrySize(e) + PAD_HEADER_SIZE <= s.bytesToWrite
    ensures Invariant(Put(s, e))
  {
    var q := s.writePointer.value;
    EntrySizeAligned(e, 0);
    EntryBytesFields(e);
    ReadAtEntry(s.memory, q, e);
    AppendPlacement(s, Entry(e, EntrySize(e)), EntryBytes(e));
    AppendBounds(s, Entry(e, EntrySize(e)), EntryBytes(e));
  }

  /** A put appends the event to the pending ones. */
  lemma PutEvents(s: BufferState, e: MidiEvent)
    requires |s.memory| == BUFFER_SIZE && s.writePointer.Some?
    requires s.writePointer.value + EntrySize(e) <= BUFFER_SIZE && EntrySize(e) <= s.bytesToWrite
    ensures Committed(Put(s, e)) == Committed(s) && Pending(Put(s, e)) == Pending(s) + [e]
  {
    EventsOfConcat(s.runs.pending, [Entry(e, EntrySize(e))]);
  }

  /** A put queues the event behind the events already queued. */
  lemma PutQueued(s: BufferState, e: MidiEvent)
    requires |s.memory| == BUFFER_SIZE && s.writePointer.Some?
    requires s.writePointer.value + EntrySize(e) <= BUFFER_SIZE && EntrySize(e) <= s.bytesToWrite
    ensures Queued(Put(s, e)) == Queued(s) + [e]
  {
    PutEvents(s, e);
    assert Committed(s) + (Pending(s) + [e]) == Committed(s) + Pending(s) + [e];
  }

  /** `pushShortMessage`: queues a short message behind the events already
      queued, or fails when its 16-byte entry does not fit. */
  function PushedShort(s: BufferState, timestamp: uint64, data: uint32): (result: (BufferState, bool))
    requires Bounds(s) && WriteSpace(s)
  {
    var (t, ok) := SpaceRequested(s, SHORT_MESSAGE_ENTRY_SIZE);
    if !ok then (t, false) else (Put(t, ShortMessage(timestamp, data)), true)
  }

  /** `pushSysexMessage`: queues a sysex message behind the events already
      queued, or fails when its entry does not fit. The entry size is the
      exact one, not truncated to 32 bits. */
  function PushedSysex(s: BufferState, timestamp: uint64, data: SysexData): (result: (BufferState, bool))
    requires Bounds(s) && WriteSpace(s)
  {
    var (t, ok) := SpaceRequested(s, SysexEntrySize(|data|));
    if !ok then (t, false) else (Put(t, SysexMessage(timestamp, data)), true)
  }

  /** A push of `e` after `requestSpace` answered `ok` on `t`. */
  function Pushed(t: BufferState, ok: bool, e: MidiEvent): BufferState
    requires Bounds(t) && WriteSpace(t) && t.writePointer.Some?
    requires ok ==> EntrySize(e) <= t.bytesToWrite
  {
    if ok then Put(t, e) else t
  }

  lemma PushedShortIs(s: BufferState, timestamp: uint64, data: uint32)
    requires Bounds(s) && WriteSpace(s)
    ensures var (t, ok) := SpaceRequested(s, SHORT_MESSAGE_ENTRY_SIZE);
      PushedShort(s, timestamp, data) == (Pushed(t, ok, ShortMessage(timestamp, data)), ok)
  {
  }

  lemma PushedSysexIs(s: BufferState, timestamp: uint64, data: SysexData)
    requires Bounds(s) && WriteSpace(s)
    ensures var (t, ok) := SpaceRequested(s, SysexEntrySize(|data|));
      PushedSysex(s, timestamp, data) == (Pushed(t, ok, SysexMessage(timestamp, data)), ok)
  {
  }

  /** A push keeps the invariant and leaves the writer with a pointer. */
  lemma PushInvariant(s: BufferState, e: MidiEvent)
    requires Invariant(s)
    ensures var (t, ok) := SpaceRequested(s, EntrySize(e));
      Invariant(Pushed(t, ok, e)) && Pushed(t, ok, e).writePointer.Some?
  {
    var (t, ok) := SpaceRequested(s, EntrySize(e));
    SpaceRequestedInvariant(s, EntrySize(e));
    if ok {
      PutInvariant(t, e);
    }
  }

  /** A push queues the event behind the events already queued exactly when
      it succeeds. */
  lemma PushQueued(s: BufferState, e: MidiEvent)
    requires Bounds(s) && WriteSpace(s)
    ensures var (t, ok) := SpaceRequested(s, EntrySize(e));
      Queued(Pushed(t, ok, e)) == Queued(s) + (if ok then [e] else [])
  {
    var (t, ok) := SpaceRequested(s, EntrySize(e));
    SpaceRequestedQueued(s, EntrySize(e));
    if ok {
      PutQueued(t, e);
    }
  }

  /** A push fails only when the space is contiguous and smaller than the
      entry. */
  lemma PushFails(s: BufferState, e: MidiEvent)
    requires Bounds(s) && WriteSpace(s)
    ensures var (t, ok) := SpaceRequested(s, EntrySize(e));
      !ok ==> t.freeSpaceContiguous && t.bytesToWrite < EntrySize(e)
  {
    SpaceRequestedFails(s, EntrySize(e));
  }

  /** A successful push writes the entry's size more bytes, out of the
      bytes it had to write. */
  lemma PushAdvances(s: BufferState, e: MidiEvent)
    requires Bounds(s) && WriteSpace(s)
    ensures var (t, ok) := SpaceRequested(s, EntrySize(e));
      ok ==> && Pushed(t, ok, e).bytesWritten == t.bytesWritten + EntrySize(e)
             && Pushed(t, ok, e).bytesToWrite + EntrySize(e) == t.bytesToWrite
  {
  }

  /** `pushShortMessage` keeps the invariant, queues the message behind the
      events already queued exactly when it answers true, and answers false
      only when the free space is contiguous and smaller than 16 bytes. */
  lemma PushShortPromise(s: BufferState, timestamp: uint64, data: uint32)
    requires Invariant(s)
    ensures var (t, ok) := PushedShort(s, timestamp, data);
      && Invariant(t)
      && Queued(t) == Queued(s) + (if ok then [ShortMessage(timestamp, data)] else [])
      && (!ok ==> t.freeSpaceContiguous && t.bytesToWrite < SHORT_MESSAGE_ENTRY_SIZE)
  {
    var e := ShortMessage(timestamp, data);
    PushedShortIs(s, timestamp, data);
    PushInvariant(s, e);
    PushQueued(s, e);
    PushFails(s, e);
  }

  /** `pushSysexMessage` keeps the invariant, queues the message behind the
      events already queued exactly when it answers true, and answers false
      only when the free space is contiguous and smaller than the entry. */
  lemma PushSysexPromise(s: BufferState, timestamp: uint64, data: SysexData)
    requires Invariant(s)
    ensures var (t, ok) := PushedSysex(s, timestamp, data);
      && Invariant(t)
      && Queued(t) == Queued(s) + (if ok then [SysexMessage(timestamp, data)] else [])
      && (!ok ==> t.freeSpaceContiguous && t.bytesToWrite < SysexEntrySize(|data|))
  {
    var e := SysexMessage(timestamp, data);
    PushedSysexIs(s, timestamp, data);
    PushInvariant(s, e);
    PushQueued(s, e);
    PushFails(s, e);
  }

  // The reader.

  /** `popEvents`: with a read pointer, the bytes read are released to the
      writer and the reader drops its pointer; without one nothing happens. */
  function Popped(s: BufferState): BufferState
    requires Bounds(s)
  {
    if s.readPointer.None? then s
    else s.(readPosition := Next(s.readPosition, s.bytesRead), readPointer := None,
            bytesRead := 0, bytesToRead := 0,
            runs := Runs([], 0, s.runs.chunk + s.runs.rest, s.runs.pending))
  }

  lemma PoppedInvariant(s: BufferState)
    requires Consistent(s) && (s.readPointer.None? ==> ReadChunk(s))
    ensures Invariant(Popped(s))
  {
    if s.readPointer.Some? {
      LayingPop(s.reader, s.readPosition, s.writePosition, s.bytesRead, s.bytesWritten, s.runs);
      DistanceAdvanceRead(s.readPosition, s.writePosition, s.bytesRead);
      NextAligned(s.readPosition, s.bytesRead);
    }
  }

  /** A pop keeps the committed events: what is left of the chunk will be
      read again. */
  lemma PoppedEvents(s: BufferState)
    requires Bounds(s)
    ensures Committed(Popped(s)) == Committed(s)
  {
    if s.readPointer.Some? {
      EventsOfConcat(s.runs.chunk, s.runs.rest);
    }
  }

  /** The bytes in use shrink by the bytes read. */
  lemma PoppedDistance(s: BufferState)
    requires Bounds(s) && s.bytesRead <= Distance(s.readPosition, s.writePosition)
    ensures Distance(Popped(s).readPosition, Popped(s).writePosition)
              == Distance(s.readPosition, s.writePosition) - s.bytesRead
  {
    if s.readPointer.Some? {
      DistanceAdvanceRead(s.readPosition, s.writePosition, s.bytesRead);
    }
  }

  /** `readPointer = ringBuffer.readPointer(bytesToRead)` for a reader
      without a pointer. */
  function ChunkTaken(s: BufferState): BufferState
    requires s.readPosition < BUFFER_SIZE && s.writePosition < BUFFER_SIZE
  {
    s.(readPointer := Some(s.readPosition), bytesToRead := Readable(s.readPosition, s.writePosition),
       runs := ChunkRuns(s.readPosition, s.writePosition, s.runs))
  }

  lemma ChunkTakenReading(s: BufferState)
    requires Invariant(s) && s.readPointer.None?
    ensures Reading(ChunkTaken(s))
  {
    LayingChunk(s.reader, s.readPosition, s.writePosition, s.bytesWritten, s.runs);
    ReadableAligned(s.readPosition, s.writePosition);
  }

  /** Between aligned positions the readable bytes are a whole number of
      `quint32`s. */
  lemma ReadableAligned(r: nat, w: nat)
    requires r < BUFFER_SIZE && w < BUFFER_SIZE && r % QUINT32_SIZE == 0 && w % QUINT32_SIZE == 0
    ensures Readable(r, w) % QUINT32_SIZE == 0
  {
    if r <= w {
      AlignedDiff(r, w - r);
    } else {
      AlignedTail(r, BUFFER_SIZE - r);
    }
  }

  /** The chunk taken holds items exactly when it holds bytes, and when it
      is empty no committed event is left. */
  lemma ChunkTakenEvents(s: BufferState)
    requires Invariant(s) && s.readPointer.None?
    ensures Committed(ChunkTaken(s)) == Committed(s)
    ensures ChunkTaken(s).bytesToRead == 0 ==> Committed(ChunkTaken(s)) == []
  {
    LayingChunk(s.reader, s.readPosition, s.writePosition, s.bytesWritten, s.runs);
  }

  /** What the reader finds at its pointer when its chunk holds bytes: the
      chunk's first item, which is a pad marker exactly when the event type
      says so. */
  lemma ChunkHead(s: BufferState)
    requires Reading(s) && 0 < s.bytesToRead
    ensures s.readPointer.value + PAD_HEADER_SIZE <= |s.memory|
    ensures s.runs.chunk != [] && (s.runs.chunk[0].PadMarker? <==> AtPad(s))
  {
    var p := s.readPosition + s.bytesRead;
    LayingHead(s.reader, s.memory, s.readPosition, s.writePosition, s.bytesRead, s.bytesWritten, s.runs);
    ItemAtDecoded(s.memory, p, s.runs.chunk[0]);
  }

  /** A pad marker at the head of the chunk is the whole chunk: it takes the
      rest of the buffer. */
  lemma ChunkPad(s: BufferState)
    requires Reading(s) && s.runs.chunk != [] && s.runs.chunk[0].PadMarker?
    ensures ChunkEvents(s) == []
  {
    PadChunk(s.reader, s.readPosition + s.bytesRead, s.runs.chunk, s.runs.chunkLength);
  }

  /** An entry at the head of the chunk holds the first committed event. */
  lemma ChunkEntry(s: BufferState)
    requires s.runs.chunk != [] && s.runs.chunk[0].Entry?
    ensures Committed(s) != [] && Committed(s)[0] == s.runs.chunk[0].event
    ensures Committed(s)[1..] == EventsOf(s.runs.chunk[1..]) + EventsOf(s.runs.rest)
  {
    EventsOfFirst(s.runs.chunk);
  }

  /** `bytesRead += bytesToRead`: the reader counts what is left of its
      chunk as read. */
  function Skipped(s: BufferState): BufferState {
    s.(bytesRead := s.bytesRead + s.bytesToRead, runs := s.runs.(chunk := [], chunkLength := 0))
  }

  lemma SkippedConsistent(s: BufferState)
    requires Reading(s)
    ensures Consistent(Skipped(s))
  {
    SkippedPlacement(s);
    SkippedBounds(s);
  }

  lemma SkippedPlacement(s: BufferState)
    requires Layout(s) && s.bytesToRead == s.runs.chunkLength
    ensures Placement(Skipped(s))
  {
    LayingDiscard(s.reader, s.readPosition, s.writePosition, s.bytesRead, s.bytesWritten, s.runs);
  }

  lemma SkippedBounds(s: BufferState)
    requires Bounds(s) && WriteSpace(s) && s.readPosition + s.bytesRead + s.bytesToRead <= BUFFER_SIZE
    requires s.readPointer.None? ==> s.bytesToRead == 0 && s.runs.chunk == [] && s.runs.chunkLength == 0
    ensures Bounds(Skipped(s)) && WriteSpace(Skipped(s))
    ensures Skipped(s).readPointer.None? ==> ReadChunk(Skipped(s))
  {
    AlignedSum(s.bytesRead, s.bytesToRead);
  }

  /** Skipping a chunk that lies within the bytes in use leaves a reader
      `retieveEvents` can start from. */
  lemma SkippedWithin(s: BufferState)
    requires ChunkWithin(s)
    ensures Retrievable(Skipped(s))
  {
    AlignedSum(s.bytesRead, s.bytesToRead);
  }

  /** Skipping drops the chunk's events. */
  lemma SkippedEvents(s: BufferState)
    ensures Committed(s) == ChunkEvents(s) + Committed(Skipped(s))
  {
    assert EventsOf([]) == [];
  }

  /** The event type at the reader's pointer is the pad marker's. */
  predicate AtPad(s: BufferState) {
    && s.readPointer.Some? && s.readPointer.value + PAD_HEADER_SIZE <= |s.memory|
    && Decode32(s.memory[s.readPointer.value..s.readPointer.value + PAD_HEADER_SIZE]) == PAD_TYPE
  }

  /** The chunk `retieveEvents` takes once it has popped what was read. */
  function Taken(s: BufferState): BufferState
    requires Bounds(s)
  {
    ChunkTaken(Popped(s))
  }

  /** When the chunk taken holds bytes, skipping it leaves a consistent
      reader with fewer bytes in use ahead of it. */
  lemma RetrieveStep(s: BufferState)
    requires Consistent(s) && (s.readPointer.None? ==> ReadChunk(s))
    ensures var t := Taken(s);
      0 < t.bytesToRead ==>
        && Consistent(Skipped(t)) && Skipped(t).readPointer.Some?
        && Skipped(t).bytesRead <= Distance(Skipped(t).readPosition, Skipped(t).writePosition)
        && Distance(Skipped(t).readPosition, Skipped(t).writePosition) - Skipped(t).bytesRead
             < Distance(s.readPosition, s.writePosition) - s.bytesRead
  {
    PoppedInvariant(s);
    PoppedDistance(s);
    ChunkTakenReading(Popped(s));
    var t := Taken(s);
    if 0 < t.bytesToRead {
      SkippedConsistent(t);
    }
  }

  /** A chunk taken that holds bytes starts with an event type within the
      buffer, since it starts at an aligned position and holds whole
      `quint32`s; skipping it leaves a reader `retieveEvents` can start
      from, with fewer bytes in use ahead of it. */
  lemma RetrieveCursors(s: BufferState)
    requires Retrievable(s)
    ensures var t := Taken(s);
      0 < t.bytesToRead ==>
        && t.readPointer.value + PAD_HEADER_SIZE <= BUFFER_SIZE
        && Retrievable(Skipped(t)) && Skipped(t).readPointer.Some?
        && Distance(Skipped(t).readPosition, Skipped(t).writePosition) - Skipped(t).bytesRead
             < Distance(s.readPosition, s.writePosition) - s.bytesRead
  {
    PoppedDistance(s);
    var u := Popped(s);
    if s.readPointer.Some? {
      NextAligned(s.readPosition, s.bytesRead);
    }
    ReadableAligned(u.readPosition, u.writePosition);
    var t := Taken(s);
    assert t == u.(readPointer := Some(u.readPosition), bytesToRead := Readable(u.readPosition, u.writePosition),
                   runs := t.runs);
    assert Bounds(u) && u.bytesRead == 0;
  }

  /** `retieveEvents`: pops what was read, takes the next contiguous chunk
      of committed bytes and, when it starts with a pad marker, skips the pad
      and tries again from the start of the buffer. */
  function Retrieved(s: BufferState): (result: (BufferState, bool))
    requires Retrievable(s)
    decreases Distance(s.readPosition, s.writePosition) - s.bytesRead
  {
    RetrieveCursors(s);
    var t := Taken(s);
    if t.bytesToRead == 0 then (t, false)
    else if !AtPad(t) then (t, true)
    else Retrieved(Skipped(t))
  }

  /** Where `retieveEvents` stops, at an empty chunk or at an entry, the
      invariant holds. */
  lemma TakenInvariant(s: BufferState)
    requires Consistent(s) && (s.readPointer.None? ==> ReadChunk(s))
    ensures Taken(s).bytesToRead == 0 || !AtPad(Taken(s)) ==> Invariant(Taken(s))
  {
    var u := Popped(s);
    PoppedInvariant(s);
    ChunkTakenReading(u);
    LayingChunk(u.reader, u.readPosition, u.writePosition, u.bytesWritten, u.runs);
    if 0 < Taken(s).bytesToRead {
      ChunkHead(Taken(s));
    }
  }

  /** The chunk taken is empty only when no committed event is left, and
      starts with an entry, holding an event, unless it starts with a pad
      marker. */
  lemma TakenFound(s: BufferState)
    requires Consistent(s) && (s.readPointer.None? ==> ReadChunk(s))
    ensures Taken(s).bytesToRead == 0 ==> Committed(Taken(s)) == []
    ensures 0 < Taken(s).bytesToRead && !AtPad(Taken(s)) ==> Committed(Taken(s)) != []
  {
    PoppedInvariant(s);
    ChunkTakenReading(Popped(s));
    ChunkTakenEvents(Popped(s));
    if 0 < Taken(s).bytesToRead {
      ChunkHead(Taken(s));
      if !AtPad(Taken(s)) {
        ChunkEntry(Taken(s));
      }
    }
  }

  /** Popping and taking a chunk keep the committed events. */
  lemma TakenEvents(s: BufferState)
    requires Consistent(s) && (s.readPointer.None? ==> ReadChunk(s))
    ensures Committed(Taken(s)) == Committed(s)
  {
    PoppedInvariant(s);
    PoppedEvents(s);
    ChunkTakenEvents(Popped(s));
  }

  /** A pad marker at the head of a chunk holds no event, so skipping the
      chunk keeps the committed events. */
  lemma PadSkipEvents(t: BufferState)
    requires Reading(t) && 0 < t.bytesToRead && AtPad(t)
    ensures Committed(Skipped(t)) == Committed(t)
  {
    ChunkHead(t);
    ChunkPad(t);
    SkippedEvents(t);
  }

  lemma TakenPadEvents(s: BufferState)
    requires Consistent(s) && (s.readPointer.None? ==> ReadChunk(s))
    ensures 0 < Taken(s).bytesToRead && AtPad(Taken(s)) ==> Committed(Skipped(Taken(s))) == Committed(Taken(s))
  {
    PoppedInvariant(s);
    ChunkTakenReading(Popped(s));
    if 0 < Taken(s).bytesToRead && AtPad(Taken(s)) {
      PadSkipEvents(Taken(s));
    }
  }

  lemma {:induction false} RetrievedInvariant(s: BufferState)
    requires Consistent(s) && (s.readPointer.None? ==> ReadChunk(s))
    ensures Invariant(Retrieved(s).0)
    decreases Distance(s.readPosition, s.writePosition) - s.bytesRead
  {
    RetrieveStep(s);
    TakenInvariant(s);
    var t := Taken(s);
    if 0 < t.bytesToRead && AtPad(t) {
      RetrievedInvariant(Skipped(t));
    }
  }

  /** `retieveEvents` finds an event exactly when committed events remain,
      and then the reader holds one. It never stops at a pad marker. */
  lemma {:induction false} RetrievedFound(s: BufferState)
    requires Consistent(s) && (s.readPointer.None? ==> ReadChunk(s))
    ensures Retrieved(s).1 <==> Committed(Retrieved(s).0) != []
    ensures Retrieved(s).1 ==> HasEvent(Retrieved(s).0) && !AtPad(Retrieved(s).0)
    decreases Distance(s.readPosition, s.writePosition) - s.bytesRead
  {
    RetrieveStep(s);
    TakenFound(s);
    var t := Taken(s);
    if 0 < t.bytesToRead && AtPad(t) {
      RetrievedFound(Skipped(t));
    }
  }

  /** `retieveEvents` keeps the committed events: a pad marker it skips
      holds none. */
  lemma {:induction false} RetrievedEvents(s: BufferState)
    requires Consistent(s) && (s.readPointer.None? ==> ReadChunk(s))
    ensures Committed(Retrieved(s).0) == Committed(s)
    decreases Distance(s.readPosition, s.writePosition) - s.bytesRead
  {
    RetrieveStep(s);
    TakenEvents(s);
    TakenPadEvents(s);
    var t := Taken(s);
    if 0 < t.bytesToRead && AtPad(t) {
      RetrievedEvents(Skipped(t));
    }
  }

  /** `retieveEvents` leaves the memory and the writer alone. */
  lemma {:induction false} RetrievedKeepsWriter(s: BufferState)
    requires Retrievable(s)
    ensures KeepsWriter(s, Retrieved(s).0)
    decreases Distance(s.readPosition, s.writePosition) - s.bytesRead
  {
    RetrieveCursors(s);
    var t := Taken(s);
    if 0 < t.bytesToRead && AtPad(t) {
      RetrievedKeepsWriter(Skipped(t));
    }
  }

  /** The event the reader holds is the first item of its chunk, an entry
      found at the read pointer, whose size the header gives. */
  lemma HeldEntry(s: BufferState)
    requires Invariant(s) && HasEvent(s)
    ensures var p := s.readPointer.value;
      && p + SHORT_MESSAGE_ENTRY_SIZE <= |s.memory|
      && s.runs.chunk != [] && s.runs.chunk[0].Entry?
      && EntrySizeAt(s.memory, p) == s.runs.chunk[0].size <= s.bytesToRead
  {
    var p := s.readPosition + s.bytesRead;
    LayingHead(s.reader, s.memory, s.readPosition, s.writePosition, s.bytesRead, s.bytesWritten, s.runs);
    ItemAtDecoded(s.memory, p, s.runs.chunk[0]);
    LayingStep(s.reader, s.readPosition, s.writePosition, s.bytesRead, s.bytesWritten, s.runs);
  }

  /** A reader in the invariant that holds an event holds an entry. */
  lemma HeldHolding(s: BufferState)
    requires Invariant(s) && HasEvent(s)
    ensures Holding(s)
  {
    HeldEntry(s);
  }

  /** `nextEvent`'s step past the entry held, by the size its header gives. */
  function Stepped(s: BufferState): BufferState
    requires Holding(s)
  {
    var p := s.readPointer.value;
    var entrySize := EntrySizeAt(s.memory, p);
    s.(readPointer := Some(p + entrySize), bytesRead := s.bytesRead + entrySize,
       bytesToRead := s.bytesToRead - entrySize,
       runs := s.runs.(chunk := s.runs.chunk[1..], chunkLength := s.runs.chunkLength - entrySize))
  }

  lemma SteppedReading(s: BufferState)
    requires Invariant(s) && Holding(s)
    ensures Reading(Stepped(s))
  {
    SteppedPlacement(s);
    SteppedBounds(s);
  }

  lemma SteppedPlacement(s: BufferState)
    requires Invariant(s) && Holding(s)
    ensures Placement(Stepped(s))
  {
    HeldEntry(s);
    LayingStep(s.reader, s.readPosition, s.writePosition, s.bytesRead, s.bytesWritten, s.runs);
  }

  lemma SteppedBounds(s: BufferState)
    requires Holding(s) && WriteSpace(s)
    ensures var t := Stepped(s);
      && Bounds(t) && WriteSpace(t) && t.readPointer == Some(t.readPosition + t.bytesRead)
      && t.bytesToRead == t.runs.chunkLength && t.readPosition + t.bytesRead + t.bytesToRead <= BUFFER_SIZE
  {
    AdvanceCursors(s);
  }

  /** The step consumes the event held. */
  lemma SteppedEvents(s: BufferState)
    requires Invariant(s) && Holding(s)
    ensures Committed(Stepped(s)) == Committed(s)[1..]
  {
    HeldEntry(s);
    ChunkEntry(s);
  }

  /** After the step the reader is consistent, and stays so when it skips
      the rest of its chunk. */
  lemma AdvanceStep(s: BufferState)
    requires Invariant(s) && Holding(s)
    ensures Consistent(Stepped(s)) && Stepped(s).readPointer.Some?
    ensures 0 < Stepped(s).bytesToRead ==> Consistent(Skipped(Stepped(s))) && Skipped(Stepped(s)).readPointer.Some?
  {
    SteppedReading(s);
    if 0 < Stepped(s).bytesToRead {
      SkippedConsistent(Stepped(s));
    }
  }

  /** After the step the reader can start `retieveEvents`, and so it can
      once it skips the rest of its chunk; when the chunk goes on, its next
      event type lies within the buffer, since entries take whole
      `quint32`s. */
  lemma AdvanceCursors(s: BufferState)
    requires Holding(s)
    ensures Retrievable(Stepped(s))
    ensures var t := Stepped(s);
      0 < t.bytesToRead ==>
        && t.readPointer.value + PAD_HEADER_SIZE <= BUFFER_SIZE
        && Retrievable(Skipped(t)) && Skipped(t).readPointer.Some?
  {
    var size := EntrySizeAt(s.memory, s.readPointer.value);
    EntrySizeAtAligned(s.memory, s.readPointer.value);
    AlignedSum(s.bytesRead, size);
    AlignedDiff(size, s.bytesToRead - size);
    AlignedSum(s.readPosition, s.bytesRead + size);
    AlignedSum(s.bytesRead + size, s.bytesToRead - size);
  }

  /** The event the reader holds is the first committed event, found as an
      entry at the read pointer. */
  lemma HeldEvent(s: BufferState)
    requires Invariant(s) && HasEvent(s)
    ensures s.runs.chunk != [] && s.runs.chunk[0].Entry?
    ensures ItemAt(s.memory, s.readPointer.value) == Some(s.runs.chunk[0])
    ensures Committed(s) != [] && Committed(s)[0] == s.runs.chunk[0].event
  {
    LayingHead(s.reader, s.memory, s.readPosition, s.writePosition, s.bytesRead, s.bytesWritten, s.runs);
    ChunkEntry(s);
  }

  /** `nextEvent`: steps past the entry held; when the chunk goes on and the
      next item is an entry it holds that one, a pad marker there is skipped,
      and otherwise the next chunk is retrieved. */
  function Advanced(s: BufferState): (result: (BufferState, bool))
    requires Holding(s)
  {
    AdvanceCursors(s);
    var t := Stepped(s);
    if 0 < t.bytesToRead && !AtPad(t) then (t, true)
    else if 0 < t.bytesToRead then Retrieved(Skipped(t))
    else Retrieved(t)
  }

  /** Where `nextEvent` stops at the next entry of its chunk, the invariant
      holds and the reader holds that entry's event. */
  lemma SteppedInvariant(s: BufferState)
    requires Invariant(s) && Holding(s)
    ensures 0 < Stepped(s).bytesToRead && !AtPad(Stepped(s)) ==> Invariant(Stepped(s))
  {
    SteppedReading(s);
    if 0 < Stepped(s).bytesToRead {
      ChunkHead(Stepped(s));
    }
  }

  lemma SteppedFound(s: BufferState)
    requires Invariant(s) && Holding(s)
    ensures 0 < Stepped(s).bytesToRead && !AtPad(Stepped(s)) ==> Committed(Stepped(s)) != []
  {
    SteppedReading(s);
    if 0 < Stepped(s).bytesToRead {
      ChunkHead(Stepped(s));
      if !AtPad(Stepped(s)) {
        ChunkEntry(Stepped(s));
      }
    }
  }

  lemma SteppedPadEvents(s: BufferState)
    requires Invariant(s) && Holding(s)
    ensures 0 < Stepped(s).bytesToRead && AtPad(Stepped(s)) ==> Committed(Skipped(Stepped(s))) == Committed(Stepped(s))
  {
    SteppedReading(s);
    if 0 < Stepped(s).bytesToRead && AtPad(Stepped(s)) {
      PadSkipEvents(Stepped(s));
    }
  }

  lemma AdvancedInvariant(s: BufferState)
    requires Invariant(s) && Holding(s)
    ensures Invariant(Advanced(s).0)
  {
    AdvanceStep(s);
    SteppedInvariant(s);
    var t := Stepped(s);
    if 0 < t.bytesToRead && AtPad(t) {
      RetrievedInvariant(Skipped(t));
    } else if t.bytesToRead == 0 {
      RetrievedInvariant(t);
    }
  }

  /** `nextEvent` finds an event exactly when committed events remain, and
      then the reader holds one. */
  lemma AdvancedFound(s: BufferState)
    requires Invariant(s) && Holding(s)
    ensures Advanced(s).1 <==> Committed(Advanced(s).0) != []
    ensures Advanced(s).1 ==> HasEvent(Advanced(s).0) && !AtPad(Advanced(s).0)
  {
    AdvanceStep(s);
    SteppedFound(s);
    var t := Stepped(s);
    if 0 < t.bytesToRead && AtPad(t) {
      RetrievedFound(Skipped(t));
    } else if t.bytesToRead == 0 {
      RetrievedFound(t);
    }
  }

  /** `nextEvent` consumes the event held, and only it. */
  lemma AdvancedEvents(s: BufferState)
    requires Invariant(s) && Holding(s)
    ensures Committed(Advanced(s).0) == Committed(s)[1..]
  {
    AdvanceStep(s);
    SteppedEvents(s);
    SteppedPadEvents(s);
    var t := Stepped(s);
    if 0 < t.bytesToRead && AtPad(t) {
      RetrievedEvents(Skipped(t));
    } else if t.bytesToRead == 0 {
      RetrievedEvents(t);
    }
  }

  lemma AdvancedKeepsWriter(s: BufferState)
    requires Holding(s)
    ensures KeepsWriter(s, Advanced(s).0)
  {
    AdvanceCursors(s);
    var t := Stepped(s);
    if 0 < t.bytesToRead && AtPad(t) {
      RetrievedKeepsWriter(Skipped(t));
    } else if t.bytesToRead == 0 {
      RetrievedKeepsWriter(t);
    }
  }

  /** `discardEvents`: everything left in the reader's chunk is counted as
      read and popped. */
  function Discarded(s: BufferState): BufferState
    requires ChunkWithin(s)
  {
    SkippedWithin(s);
    Popped(Skipped(s))
  }

  /** Skipping the whole chunk of a reader in the invariant keeps it
      consistent, with no chunk left. */
  lemma SkippedLayoutOf(s: BufferState)
    requires Invariant(s)
    ensures Consistent(Skipped(s)) && (Skipped(s).readPointer.None? ==> ReadChunk(Skipped(s)))
  {
    SkippedPlacement(s);
    SkippedBounds(s);
  }

  lemma DiscardedInvariant(s: BufferState)
    requires Invariant(s)
    ensures Invariant(Discarded(s)) && Discarded(s).readPointer == None
  {
    SkippedLayoutOf(s);
    PoppedInvariant(Skipped(s));
  }

  /** Discarding drops the chunk's events and keeps the rest. */
  lemma DiscardedEvents(s: BufferState)
    requires Invariant(s)
    ensures Committed(s) == ChunkEvents(s) + Committed(Discarded(s))
  {
    SkippedLayoutOf(s);
    SkippedEvents(s);
    PoppedEvents(Skipped(s));
  }
}
