/** `QMidiBuffer`: MIDI events queued by a writer as aligned entries in a
    byte ring and taken back by a reader in the order they were pushed. The
    writer accumulates entries behind the ring's write position and commits
    them with `flush`; when the free space wraps around and the tail of the
    buffer is too small, it marks the tail with a pad header and restarts at
    the beginning. The reader takes the contiguous committed bytes as a chunk,
    walks the entries in it, skips pad markers, and releases what it has
    consumed with `popEvents`.

    Each method is proved to take `State()` to the value the corresponding
    transition of `MidiQueue` gives, from the states that transition is
    defined on; what the transitions keep, the invariant among them, and what
    they promise about the queued events is proved there. */
module QMidiBuffers {
  import opened CppArith
  import opened MidiLayout
  import opened RingBuffers
  import opened QueueLayout
  import opened MidiQueue

  class QMidiBuffer {
    const ringBuffer: RingBuffer
    /** The writer's position in the ring, `None` for a null pointer. */
    var writePointer: Option<nat>
    var bytesWritten: nat
    var bytesToWrite: nat
    var freeSpaceContiguous: bool
    /** The reader's position in the ring, `None` for a null pointer. */
    var readPointer: Option<nat>
    var bytesRead: nat
    var bytesToRead: nat

    /** Where the queued items lie. */
    ghost var runs: Runs
    /** What the reader finds at each offset of the ring's memory. */
    ghost var reader: Reader

    /** The buffer and its ring as a value. */
    ghost function State(): BufferState
      reads this, ringBuffer, ringBuffer.buffer
    {
      BufferState(ringBuffer.buffer[..], ringBuffer.readPosition, ringBuffer.writePosition,
                  writePointer, bytesWritten, bytesToWrite, freeSpaceContiguous,
                  readPointer, bytesRead, bytesToRead, runs, reader)
    }

    ghost predicate Valid()
      reads this, ringBuffer, ringBuffer.buffer
    {
      ringBuffer.Valid() && Invariant(State())
    }

    /** An empty buffer with neither cursor set. */
    constructor ()
      ensures Valid() && fresh(ringBuffer) && fresh(ringBuffer.buffer)
      ensures State() == Empty(ringBuffer.buffer[..])
    {
      var ring := new RingBuffer();
      ringBuffer := ring;
      writePointer := None;
      bytesWritten := 0;
      bytesToWrite := 0;
      freeSpaceContiguous := false;
      readPointer := None;
      bytesRead := 0;
      bytesToRead := 0;
      runs := Runs([], 0, [], []);
      reader := ReadAt(ring.buffer[..]);
      EmptyInvariant(ring.buffer[..]);
    }

    /** The stores through the write pointer: the entry's fields, a pad
        header, or the `memcpy` of a sysex payload. */
    method StoreBytes(q: nat, bytes: seq<Byte>)
      requires ringBuffer.Valid() && q + |bytes| <= BUFFER_SIZE
      modifies ringBuffer.buffer, this`reader
      ensures ringBuffer.buffer[..] == WriteBytes(old(ringBuffer.buffer[..]), q, bytes)
      ensures reader == ReadAt(ringBuffer.buffer[..])
    {
      forall i | q <= i < q + |bytes| {
        ringBuffer.buffer[i] := bytes[i - q];
      }
      assert ringBuffer.buffer[..] == WriteBytes(old(ringBuffer.buffer[..]), q, bytes);
      reader := ReadAt(ringBuffer.buffer[..]);
    }

    /** `flush`: with a write pointer, the bytes written are committed to the
        ring and the writer drops its pointer; without one nothing happens. */
    method Flush()
      requires ringBuffer.Valid() && Bounds(State())
      modifies this, ringBuffer
      ensures ringBuffer.Valid() && State() == Flushed(old(State()))
    {
      if writePointer.None? {
        return;
      }
      ringBuffer.AdvanceWritePointer(bytesWritten);
      runs := runs.(rest := runs.rest + runs.pending, pending := []);
      writePointer, bytesWritten, bytesToWrite := None, 0, 0;
    }

    /** `popEvents`: with a read pointer, the bytes read are released to the
        writer and the reader drops its pointer; without one nothing
        happens. */
    method PopEvents()
      requires ringBuffer.Valid() && Retrievable(State())
      modifies this, ringBuffer
      ensures ringBuffer.Valid() && State() == Popped(old(State()))
    {
      if readPointer.None? {
        return;
      }
      ringBuffer.AdvanceReadPointer(bytesRead);
      runs := Runs([], 0, runs.chunk + runs.rest, runs.pending);
      readPointer, bytesRead, bytesToRead := None, 0, 0;
    }

    /** The first steps of `retieveEvents`: what was read is popped and the
        ring's readable bytes become the reader's chunk, at pointer `p`. */
    method TakeChunk() returns (p: nat)
      requires ringBuffer.Valid() && Retrievable(State())
      modifies this, ringBuffer
      ensures ringBuffer.Valid() && State() == Taken(old(State())) && readPointer == Some(p)
    {
      PopEvents();
      ghost var u := State();
      var available;
      p, available := ringBuffer.ReadPointer();
      readPointer, bytesToRead := Some(p), available;
      runs := ChunkRuns(ringBuffer.readPosition, ringBuffer.writePosition, runs);
      assert State() == ChunkTaken(u);
    }

    /** `bytesRead += bytesToRead`: the rest of the chunk is counted as
        read. */
    method SkipChunk()
      modifies this`bytesRead, this`runs
      ensures State() == Skipped(old(State()))
    {
      bytesRead := bytesRead + bytesToRead;
      runs := runs.(chunk := [], chunkLength := 0);
    }

    /** `retieveEvents`: pops what was read, takes the next contiguous chunk
        of committed bytes and, when it starts with a pad marker, skips the
        pad and tries again from the start of the buffer. */
    method RetrieveEvents() returns (found: bool)
      requires ringBuffer.Valid() && Retrievable(State())
      modifies this, ringBuffer
      ensures ringBuffer.Valid() && (State(), found) == Retrieved(old(State()))
      decreases Distance(ringBuffer.readPosition, ringBuffer.writePosition) - bytesRead
    {
      ghost var s := State();
      RetrieveCursors(s);
      var p := TakeChunk();
      if bytesToRead == 0 {
        return false;
      }
      var eventType := Decode32(ringBuffer.buffer[p..p + PAD_HEADER_SIZE]);
      assert AtPad(Taken(s)) <==> eventType == PAD_TYPE;
      if eventType != PAD_TYPE {
        return true;
      }
      SkipChunk();
      found := RetrieveEvents();
    }

    /** `getEventTimestamp`: the timestamp of the event the reader holds,
        which both entry layouts keep after the type and data fields. */
    method GetEventTimestamp() returns (timestamp: uint64)
      requires Valid() && HasEvent(State())
      ensures Committed(State()) != [] && timestamp == Committed(State())[0].timestamp
    {
      var p := readPointer.value;
      HeldEvent(State());
      ItemAtDecoded(State().memory, p, runs.chunk[0]);
      timestamp := Decode64(ringBuffer.buffer[p + 8..p + 16]);
    }

    /** `getEventData`: for a short message its packed data and no payload;
        for a sysex message the payload's length and the payload bytes the
        returned pointer refers to. */
    method GetEventData() returns (data: uint32, sysexData: Option<seq<Byte>>)
      requires Valid() && HasEvent(State())
      ensures Committed(State()) != []
      ensures Committed(State())[0].ShortMessage? ==>
                data == Committed(State())[0].shortMessageData && sysexData == None
      ensures Committed(State())[0].SysexMessage? ==>
                && data == |Committed(State())[0].sysexData|
                && sysexData.Some? && sysexData.value == Committed(State())[0].sysexData
    {
      var p := readPointer.value;
      HeldEvent(State());
      ItemAtDecoded(State().memory, p, runs.chunk[0]);
      var eventType := Decode32(ringBuffer.buffer[p..p + 4]);
      if eventType == SYSEX_MESSAGE_TYPE {
        var sysexDataLength := Decode32(ringBuffer.buffer[p + 4..p + 8]);
        sysexData := Some(ringBuffer.buffer[p + 16..p + 16 + sysexDataLength]);
        data := sysexDataLength;
      } else {
        sysexData := None;
        data := Decode32(ringBuffer.buffer[p + 4..p + 8]);
      }
    }

    /** The first steps of `nextEvent`: the reader moves past the entry it
        holds, by the entry size computed from the entry's header. */
    method StepEntry()
      requires ringBuffer.Valid() && Holding(State())
      modifies this`readPointer, this`bytesRead, this`bytesToRead, this`runs
      ensures State() == Stepped(old(State()))
    {
      var p := readPointer.value;
      var eventType := Decode32(ringBuffer.buffer[p..p + 4]);
      var entrySize: uint32;
      if eventType == SYSEX_MESSAGE_TYPE {
        var sysexDataLength := Decode32(ringBuffer.buffer[p + 4..p + 8]);
        entrySize := SysexEntrySizeAsWritten(sysexDataLength);
      } else {
        entrySize := SHORT_MESSAGE_ENTRY_SIZE;
      }
      assert entrySize == EntrySizeAt(State().memory, p);
      readPointer := Some(p + entrySize);
      bytesRead := bytesRead + entrySize;
      bytesToRead := bytesToRead - entrySize;
      runs := runs.(chunk := runs.chunk[1..], chunkLength := runs.chunkLength - entrySize);
    }

    /** `nextEvent`: steps past the entry held, by the entry size computed
        from its header; when the chunk goes on and the next item is an entry
        it holds that one, a pad marker there is skipped, and otherwise the
        next chunk is retrieved. */
    method NextEvent() returns (found: bool)
      requires ringBuffer.Valid() && Holding(State())
      modifies this, ringBuffer
      ensures ringBuffer.Valid() && (State(), found) == Advanced(old(State()))
    {
      ghost var s := State();
      AdvanceCursors(s);
      StepEntry();
      if bytesToRead > 0 {
        var q := readPointer.value;
        var nextType := Decode32(ringBuffer.buffer[q..q + PAD_HEADER_SIZE]);
        assert AtPad(Stepped(s)) <==> nextType == PAD_TYPE;
        if nextType != PAD_TYPE {
          return true;
        }
        SkipChunk();
      }
      found := RetrieveEvents();
    }

    /** `discardEvents`: everything left in the reader's chunk is counted as
        read and popped. */
    method DiscardEvents()
      requires ringBuffer.Valid() && ChunkWithin(State())
      modifies this, ringBuffer
      ensures ringBuffer.Valid() && State() == Discarded(old(State()))
    {
      SkippedWithin(State());
      bytesRead := bytesRead + bytesToRead;
      runs := runs.(chunk := [], chunkLength := 0);
      PopEvents();
    }

    /** One round of `requestSpace`'s loop on a space that wraps around: a
        pad header marks the tail of the buffer, the tail is committed, and a
        new write pointer is taken at the start of the buffer. */
    method Restart()
      requires ringBuffer.Valid() && Bounds(State()) && WriteSpace(State())
      requires writePointer.Some? && !freeSpaceContiguous
      modifies this, ringBuffer, ringBuffer.buffer
      ensures ringBuffer.Valid() && State() == Restarted(old(State()))
    {
      ghost var s := State();
      PaddedBounds(s);
      StoreBytes(writePointer.value, PadHeaderBytes());
      bytesWritten := bytesWritten + bytesToWrite;
      runs := runs.(pending := runs.pending + [PadMarker]);
      assert State() == Padded(s);
      Flush();
      var p, free, contiguous := ringBuffer.WritePointer();
      writePointer, bytesToWrite, freeSpaceContiguous := Some(p), free, contiguous;
    }

    /** `requestSpace`: takes a write pointer if there is none; while the
        space is smaller than the event plus a pad header, a contiguous space
        answers whether the event itself fits, and a space that wraps around
        gets a pad header, is committed to the end of the buffer, and writing
        restarts at the beginning. */
    method RequestSpace(eventLength: nat) returns (ok: bool)
      requires ringBuffer.Valid() && Bounds(State()) && WriteSpace(State())
      modifies this, ringBuffer, ringBuffer.buffer
      ensures ringBuffer.Valid() && (State(), ok) == SpaceRequested(old(State()), eventLength)
    {
      ghost var s0 := State();
      if writePointer.None? {
        WriteTakenSpace(s0);
        var p, free, contiguous := ringBuffer.WritePointer();
        writePointer, bytesToWrite, freeSpaceContiguous := Some(p), free, contiguous;
        assert State() == WriteTaken(s0);
      }
      while bytesToWrite < eventLength + PAD_HEADER_SIZE
        invariant ringBuffer.Valid() && Bounds(State()) && WriteSpace(State()) && writePointer.Some?
        invariant SpaceFound(State(), eventLength) == SpaceRequested(s0, eventLength)
        decreases if freeSpaceContiguous then 0 else 1
      {
        if freeSpaceContiguous {
          return eventLength <= bytesToWrite;
        }
        RestartedContiguous(State());
        Restart();
      }
      return true;
    }

    /** The stores of a successful push: the entry's bytes at the write
        pointer, the pointer moved past the entry, and the counters moved by
        its size. */
    method AppendEntry(entry: Item, bytes: seq<Byte>)
      requires ringBuffer.Valid() && writePointer.Some? && entry.Entry?
      requires |bytes| <= entry.size && writePointer.value + entry.size <= BUFFER_SIZE
      requires entry.size <= bytesToWrite
      modifies this, ringBuffer.buffer
      ensures ringBuffer.Valid() && State() == Append(old(State()), entry, bytes)
    {
      var q := writePointer.value;
      writePointer, bytesWritten, bytesToWrite := Some(q + entry.size), bytesWritten + entry.size, bytesToWrite - entry.size;
      runs := runs.(pending := runs.pending + [entry]);
      StoreBytes(q, bytes);
    }

    /** `pushShortMessage`: queues a short message behind the events already
        queued, or reports that the 16-byte entry does not fit. */
    method PushShortMessage(timestamp: uint64, data: uint32) returns (ok: bool)
      requires ringBuffer.Valid() && Bounds(State()) && WriteSpace(State())
      modifies this, ringBuffer, ringBuffer.buffer
      ensures ringBuffer.Valid() && (State(), ok) == PushedShort(old(State()), timestamp, data)
    {
      ok := RequestSpace(SHORT_MESSAGE_ENTRY_SIZE);
      if !ok {
        return;
      }
      var e := ShortMessage(timestamp, data);
      AppendEntry(Entry(e, EntrySize(e)), EntryBytes(e));
    }

    /** `pushSysexMessage`: queues a sysex message behind the events already
        queued, or reports that its entry does not fit. */
    method PushSysexMessage(timestamp: uint64, data: SysexData) returns (ok: bool)
      requires ringBuffer.Valid() && Bounds(State()) && WriteSpace(State())
      modifies this, ringBuffer, ringBuffer.buffer
      ensures ringBuffer.Valid() && (State(), ok) == PushedSysex(old(State()), timestamp, data)
    {
      var entrySize := SysexEntrySize(|data|);
      ok := RequestSpace(entrySize);
      if !ok {
        return;
      }
      var e := SysexMessage(timestamp, data);
      AppendEntry(Entry(e, EntrySize(e)), EntryBytes(e));
    }
  }
}
