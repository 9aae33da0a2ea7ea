/** Where the queued items lie in the ring: the runs of items `QMidiBuffer`
    keeps track of, how they are laid out relative to the ring's read and
    write positions, and how each of the buffer's operations moves them. */
module QueueLayout {
  import opened MidiLayout
  import opened RingBuffers

  /** The runs of items the buffer keeps track of: the committed items left
      in the reader's chunk and the bytes they take, the committed items
      after the chunk, and the items written since the last flush. */
  datatype Runs = Runs(chunk: seq<Item>, chunkLength: nat, rest: seq<Item>, pending: seq<Item>)

  /** The runs laid in the ring, whose read position is `r` and write
      position `w`: the chunk starts `bytesRead` bytes after `r`, the rest of
      the committed items follow it up to `w`, and the pending items take the
      `bytesWritten` bytes from `w` on. */
  ghost predicate Laying(read: Reader, r: nat, w: nat, bytesRead: nat, bytesWritten: nat, runs: Runs) {
    && r < BUFFER_SIZE && w < BUFFER_SIZE
    && bytesRead + runs.chunkLength <= Distance(r, w)
    && Laid(read, Next(r, bytesRead), runs.chunk, runs.chunkLength)
    && Laid(read, Next(r, bytesRead + runs.chunkLength), runs.rest, Distance(r, w) - bytesRead - runs.chunkLength)
    && Laid(read, w, runs.pending, bytesWritten)
  }

  /** Committing the bytes written appends the pending run to the committed
      items. */
  lemma LayingFlush(read: Reader, r: nat, w: nat, bytesRead: nat, bytesWritten: nat, runs: Runs)
    requires Laying(read, r, w, bytesRead, bytesWritten, runs) && Distance(r, w) + bytesWritten < BUFFER_SIZE
    ensures Laying(read, r, Next(w, bytesWritten), bytesRead, 0,
                   runs.(rest := runs.rest + runs.pending, pending := []))
  {
    var start := bytesRead + runs.chunkLength;
    NextNext(r, start, Distance(r, w) - start);
    LaidConcat(read, Next(r, start), runs.rest, Distance(r, w) - start, runs.pending, bytesWritten);
    DistanceAdvanceWrite(r, w, bytesWritten);
  }

  /** Releasing the bytes read makes the chunk part of the committed items
      again, read from the new read position on. */
  lemma LayingPop(read: Reader, r: nat, w: nat, bytesRead: nat, bytesWritten: nat, runs: Runs)
    requires Laying(read, r, w, bytesRead, bytesWritten, runs)
    ensures Laying(read, Next(r, bytesRead), w, 0, bytesWritten,
                   Runs([], 0, runs.chunk + runs.rest, runs.pending))
  {
    NextNext(r, bytesRead, runs.chunkLength);
    LaidConcat(read, Next(r, bytesRead), runs.chunk, runs.chunkLength,
               runs.rest, Distance(r, w) - bytesRead - runs.chunkLength);
    DistanceAdvanceRead(r, w, bytesRead);
  }

  /** Counting the chunk as read leaves the rest where it was. */
  lemma LayingDiscard(read: Reader, r: nat, w: nat, bytesRead: nat, bytesWritten: nat, runs: Runs)
    requires Laying(read, r, w, bytesRead, bytesWritten, runs)
    ensures Laying(read, r, w, bytesRead + runs.chunkLength, bytesWritten,
                   runs.(chunk := [], chunkLength := 0))
  {
  }

  /** Stepping past the entry at the head of the chunk. */
  lemma LayingStep(read: Reader, r: nat, w: nat, bytesRead: nat, bytesWritten: nat, runs: Runs)
    requires Laying(read, r, w, bytesRead, bytesWritten, runs) && runs.chunk != [] && runs.chunk[0].Entry?
    ensures runs.chunk[0].size <= runs.chunkLength
    ensures Laying(read, r, w, bytesRead + runs.chunk[0].size, bytesWritten,
                   runs.(chunk := runs.chunk[1..], chunkLength := runs.chunkLength - runs.chunk[0].size))
  {
    NextNext(r, bytesRead, runs.chunk[0].size);
  }

  /** A chunk that holds bytes starts with an item found where the reader
      looks. */
  lemma LayingHead(read: Reader, mem: seq<Byte>, r: nat, w: nat, bytesRead: nat, bytesWritten: nat, runs: Runs)
    requires Reads(read, mem) && Laying(read, r, w, bytesRead, bytesWritten, runs) && 0 < runs.chunkLength
    ensures runs.chunk != [] && ItemAt(mem, Next(r, bytesRead)) == Some(runs.chunk[0])
  {
    LaidNonEmpty(read, Next(r, bytesRead), runs.chunk, runs.chunkLength);
    assert ItemAt(mem, Next(r, bytesRead)) == read[Next(r, bytesRead)];
  }

  /** A chunk that ends by the end of the buffer and starts with a pad
      marker holds nothing else: the pad takes the rest of the buffer. */
  lemma PadChunk(read: Reader, p: nat, chunk: seq<Item>, chunkLength: nat)
    requires Laid(read, p, chunk, chunkLength) && p + chunkLength <= BUFFER_SIZE
    requires chunk != [] && chunk[0].PadMarker?
    ensures EventsOf(chunk) == []
  {
    LaidNonEmpty(read, Next(p, Reach(p, chunk[0])), chunk[1..], chunkLength - Reach(p, chunk[0]));
    EventsOfFirst(chunk);
  }

  /** The runs once `retieveEvents` takes its chunk from a popped reader:
      the committed items up to the write position, or those up to the end of
      the buffer when they wrap around. */
  function ChunkRuns(r: nat, w: nat, runs: Runs): (runs': Runs)
    requires r < BUFFER_SIZE && w < BUFFER_SIZE
  {
    if r <= w then runs.(chunk := runs.rest, chunkLength := w - r, rest := [])
    else
      var k := ItemsToEnd(r, runs.rest);
      runs.(chunk := runs.rest[..k], chunkLength := BUFFER_SIZE - r, rest := runs.rest[k..])
  }

  /** Taking the chunk keeps the layout and the committed events, since no
      item straddles the end of the buffer; the chunk holds items exactly when
      it holds bytes. */
  lemma LayingChunk(read: Reader, r: nat, w: nat, bytesWritten: nat, runs: Runs)
    requires Laying(read, r, w, 0, bytesWritten, runs) && runs.chunk == [] && runs.chunkLength == 0
    ensures Laying(read, r, w, 0, bytesWritten, ChunkRuns(r, w, runs))
    ensures ChunkRuns(r, w, runs).chunk != [] <==> 0 < ChunkRuns(r, w, runs).chunkLength
    ensures EventsOf(ChunkRuns(r, w, runs).chunk) + EventsOf(ChunkRuns(r, w, runs).rest) == EventsOf(runs.rest)
  {
    var runs' := ChunkRuns(r, w, runs);
    if w < r {
      LaidBoundary(read, r, runs.rest, Distance(r, w));
      EventsOfSplit(runs.rest, ItemsToEnd(r, runs.rest));
    }
    LaidNonEmpty(read, r, runs'.chunk, runs'.chunkLength);
  }

  /** A write at the end of the pending run, of no more than the free space,
      leaves a run that lies `offset` bytes after the read position, within
      the bytes in use and written, laid as it was. */
  lemma LaidFrameFrom(read: Reader, mem: seq<Byte>, r: nat, w: nat, bytesWritten: nat,
                      offset: nat, items: seq<Item>, len: nat, bytes: seq<Byte>, read': Reader)
    requires |mem| == BUFFER_SIZE && Reads(read, mem) && r < BUFFER_SIZE && w < BUFFER_SIZE
    requires 0 < |bytes| && w + bytesWritten + |bytes| <= BUFFER_SIZE
    requires Distance(r, w) + bytesWritten + |bytes| < BUFFER_SIZE
    requires offset + len <= Distance(r, w) + bytesWritten && Laid(read, Next(r, offset), items, len)
    requires Reads(read', WriteBytes(mem, w + bytesWritten, bytes))
    ensures Laid(read', Next(r, offset), items, len)
  {
    var used, q, c := Distance(r, w), w + bytesWritten, Next(r, offset);
    NextNext(r, used, bytesWritten);
    DistanceNext(w, bytesWritten);
    NextNext(r, offset, used + bytesWritten - offset);
    DistanceNext(c, used + bytesWritten - offset);
    LaidFrame(read, mem, c, items, len, q, bytes, read');
  }

  /** A write at the end of the pending run, of no more than the free space,
      leaves every run laid as it was. */
  lemma LayingWrite(read: Reader, mem: seq<Byte>, r: nat, w: nat, bytesRead: nat, bytesWritten: nat,
                    runs: Runs, bytes: seq<Byte>, read': Reader)
    requires |mem| == BUFFER_SIZE && Reads(read, mem) && Laying(read, r, w, bytesRead, bytesWritten, runs)
    requires 0 < |bytes| && w + bytesWritten + |bytes| <= BUFFER_SIZE
    requires Distance(r, w) + bytesWritten + |bytes| < BUFFER_SIZE
    requires Reads(read', WriteBytes(mem, w + bytesWritten, bytes))
    ensures Laying(read', r, w, bytesRead, bytesWritten, runs)
  {
    var used := Distance(r, w);
    LaidFrameFrom(read, mem, r, w, bytesWritten, bytesRead, runs.chunk, runs.chunkLength, bytes, read');
    LaidFrameFrom(read, mem, r, w, bytesWritten, bytesRead + runs.chunkLength, runs.rest,
                  used - bytesRead - runs.chunkLength, bytes, read');
    LaidFrameFrom(read, mem, r, w, bytesWritten, used, runs.pending, bytesWritten, bytes, read');
  }

  /** An item found where the pending run ends, and ending by the free
      space, extends the run by that item. */
  lemma LayingAppend(read: Reader, r: nat, w: nat, bytesRead: nat, bytesWritten: nat,
                     runs: Runs, item: Item, reach: nat)
    requires Laying(read, r, w, bytesRead, bytesWritten, runs)
    requires w + bytesWritten < BUFFER_SIZE && Placed(read, w + bytesWritten, item)
    requires reach == Reach(w + bytesWritten, item) && Distance(r, w) + bytesWritten + reach < BUFFER_SIZE
    ensures Laying(read, r, w, bytesRead, bytesWritten + reach, runs.(pending := runs.pending + [item]))
  {
    DistanceNext(w, bytesWritten);
    LaidAppend(read, w, runs.pending, bytesWritten, item);
  }

  /** Writing an entry's bytes where the pending run ends, within the free
      space, extends the run by that entry and leaves every run laid as it
      was. */
  lemma LayingPush(read: Reader, mem: seq<Byte>, r: nat, w: nat, bytesRead: nat, bytesWritten: nat,
                   runs: Runs, q: nat, entry: Item, bytes: seq<Byte>, mem': seq<Byte>, read': Reader)
    requires |mem| == BUFFER_SIZE && Reads(read, mem) && Laying(read, r, w, bytesRead, bytesWritten, runs)
    requires q == w + bytesWritten && entry.Entry? && 0 < |bytes| <= entry.size && q + entry.size <= BUFFER_SIZE
    requires Distance(r, w) + bytesWritten + entry.size < BUFFER_SIZE
    requires mem' == WriteBytes(mem, q, bytes) && read' == ReadAt(mem') && read'[q] == Some(entry)
    ensures Reads(read', mem')
    ensures Laying(read', r, w, bytesRead, bytesWritten + entry.size, runs.(pending := runs.pending + [entry]))
  {
    ReadAtReads(mem');
    LayingWrite(read, mem, r, w, bytesRead, bytesWritten, runs, bytes, read');
    LayingAppend(read', r, w, bytesRead, bytesWritten, runs, entry, entry.size);
  }
}
