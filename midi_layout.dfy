/** The byte layout of the MIDI event queue: how short messages, sysex
    messages and pad markers are laid out in the ring buffer's memory, and how
    a run of them laid between two offsets of the ring is read back. */
module MidiLayout {
  import opened CppArith

  type Byte = x: int | 0 <= x < 256

  const TWO_64: int := 0x1_0000_0000_0000_0000

  /** A value of a C++ `quint64`. */
  type uint64 = x: int | 0 <= x < TWO_64

  datatype Option<T> = None | Some(value: T)

  /** `BUFFER_SIZE`: the capacity of the ring buffer in bytes. */
  const BUFFER_SIZE: int := 32768

  /** The values of `MidiEventType`. */
  const SHORT_MESSAGE_TYPE: int := 0
  const SYSEX_MESSAGE_TYPE: int := 1
  const PAD_TYPE: int := 2

  /** `sizeof(quint32)`, which is also the size of the `MidiEventType` field
      and of a `PadHeader`. */
  const QUINT32_SIZE: int := 4
  const PAD_HEADER_SIZE: int := 4

  /** `sizeof(ShortMessageEntry)` and `sizeof(SysexMessageHeader)`: a 4-byte
      event type, a 4-byte data or length field and an 8-byte timestamp. */
  const SHORT_MESSAGE_ENTRY_SIZE: int := 16
  const SYSEX_MESSAGE_HEADER_SIZE: int := 16

  /** The four bytes of a `quint32` in memory, least significant first: the
      layout is that of a little-endian host. */
  function Encode32(x: uint32): (s: seq<Byte>)
    ensures |s| == 4
  {
    var y1 := x / 0x100;
    var y2 := y1 / 0x100;
    [x % 0x100, y1 % 0x100, y2 % 0x100, y2 / 0x100]
  }

  /** The `quint32` stored in four bytes. */
  function Decode32(s: seq<Byte>): uint32
    requires |s| == 4
  {
    var s0, s1, s2, s3: int := s[0], s[1], s[2], s[3];
    s0 + 0x100 * s1 + 0x1_0000 * s2 + 0x100_0000 * s3
  }

  /** The eight bytes of a `quint64`: the low word, then the high word. */
  function Encode64(x: uint64): (s: seq<Byte>)
    ensures |s| == 8
  {
    Encode32(x % TWO_32) + Encode32(x / TWO_32)
  }

  /** The `quint64` stored in eight bytes. */
  function Decode64(s: seq<Byte>): uint64
    requires |s| == 8
  {
    Decode32(s[..4]) + TWO_32 * Decode32(s[4..])
  }

  /** Division by 256 splits off the low byte. */
  lemma DivMod256(x: int, lo: int, hi: int)
    requires x == lo + 0x100 * hi && 0 <= lo < 0x100
    ensures x / 0x100 == hi && x % 0x100 == lo
  {
  }

  /** Reading a field back gives the value stored in it, and storing the value
      read from a field reproduces its bytes. */
  lemma Decode32Encode32(x: uint32)
    ensures Decode32(Encode32(x)) == x
  {
    var y1 := x / 0x100;
    var y2 := y1 / 0x100;
    assert x == x % 0x100 + 0x100 * y1;
    assert y1 == y1 % 0x100 + 0x100 * y2;
    assert y2 == y2 % 0x100 + 0x100 * (y2 / 0x100);
  }

  lemma Encode32Decode32(s: seq<Byte>)
    requires |s| == 4
    ensures Encode32(Decode32(s)) == s
  {
    var x: int := Decode32(s);
    var s0, s1, s2, s3: int := s[0], s[1], s[2], s[3];
    DivMod256(x, s0, s1 + 0x100 * s2 + 0x1_0000 * s3);
    DivMod256(s1 + 0x100 * s2 + 0x1_0000 * s3, s1, s2 + 0x100 * s3);
    DivMod256(s2 + 0x100 * s3, s2, s3);
  }

  lemma Decode64Encode64(x: uint64)
    ensures Decode64(Encode64(x)) == x
  {
    var s := Encode64(x);
    assert s[..4] == Encode32(x % TWO_32) && s[4..] == Encode32(x / TWO_32);
    Decode32Encode32(x % TWO_32);
    Decode32Encode32(x / TWO_32);
  }

  lemma Encode64Decode64(s: seq<Byte>)
    requires |s| == 8
    ensures Encode64(Decode64(s)) == s
  {
    var lo, hi := Decode32(s[..4]), Decode32(s[4..]);
    var x := Decode64(s);
    assert x % TWO_32 == lo && x / TWO_32 == hi;
    Encode32Decode32(s[..4]);
    Encode32Decode32(s[4..]);
    assert s == s[..4] + s[4..];
  }

  /** `alignSysexDataLength`: the sysex payload length rounded up to a whole
      number of `quint32`s, so that every entry starts 4-byte aligned. It is
      the one multiple of 4 in `[dataLength, dataLength + 4)`, hence the least
      multiple of 4 not below `dataLength`. */
  function AlignSysexDataLength(dataLength: nat): (r: nat)
    ensures r % QUINT32_SIZE == 0
    ensures dataLength <= r < dataLength + QUINT32_SIZE
  {
    ((dataLength + QUINT32_SIZE - 1) / QUINT32_SIZE) * QUINT32_SIZE
  }

  /** A sysex payload: its length must fit the `quint32` length field. */
  type SysexData = s: seq<Byte> | |s| < TWO_32

  /** An event as the queue's users push and read it. */
  datatype MidiEvent =
    | ShortMessage(timestamp: uint64, shortMessageData: uint32)
    | SysexMessage(timestamp: uint64, sysexData: SysexData)

  /** The space an entry takes in the buffer: the fixed entry for a short
      message, the header plus the aligned payload for a sysex message. */
  function EntrySize(e: MidiEvent): nat {
    match e
    case ShortMessage(_, _) => SHORT_MESSAGE_ENTRY_SIZE
    case SysexMessage(_, data) => SysexEntrySize(|data|)
  }

  /** Two whole numbers of `quint32`s make one. */
  lemma AlignedSum(a: nat, b: nat)
    requires a % QUINT32_SIZE == 0 && b % QUINT32_SIZE == 0
    ensures (a + b) % QUINT32_SIZE == 0
  {
  }

  /** What is left of a whole number of `quint32`s after an aligned part
      is a whole number of them. */
  lemma AlignedDiff(a: nat, b: nat)
    requires a % QUINT32_SIZE == 0 && (a + b) % QUINT32_SIZE == 0
    ensures b % QUINT32_SIZE == 0
  {
  }

  /** The bytes from an aligned offset to the end of the buffer make a
      whole number of `quint32`s. */
  lemma AlignedTail(p: nat, n: nat)
    requires p % QUINT32_SIZE == 0 && p + n == BUFFER_SIZE
    ensures n % QUINT32_SIZE == 0
  {
  }

  /** Every entry takes a whole number of `quint32`s, so writing one keeps
      the writer aligned. */
  lemma EntrySizeAligned(e: MidiEvent, offset: nat)
    requires offset % QUINT32_SIZE == 0
    ensures (offset + EntrySize(e)) % QUINT32_SIZE == 0
  {
  }

  /** The space a sysex entry with a payload of `dataLength` bytes takes:
      the header plus the aligned payload, computed without truncation. It
      always holds the header and the whole payload, and the space left
      after the payload is less than one `quint32`. */
  function SysexEntrySize(dataLength: nat): (r: nat)
    ensures SYSEX_MESSAGE_HEADER_SIZE + dataLength <= r < SYSEX_MESSAGE_HEADER_SIZE + dataLength + QUINT32_SIZE
    ensures r % QUINT32_SIZE == 0
  {
    SYSEX_MESSAGE_HEADER_SIZE + AlignSysexDataLength(dataLength)
  }

  /** The entry size as the C++ `pushSysexMessage` and `nextEvent` compute it
      for a sysex payload of `dataLength` bytes: the sum is truncated to 32
      bits. The modelled push and read do not use it; they use the exact
      `SysexEntrySize`. */
  function SysexEntrySizeAsWritten(dataLength: uint32): uint32 {
    (SYSEX_MESSAGE_HEADER_SIZE + AlignSysexDataLength(dataLength)) % TWO_32
  }

  /** For the largest payload lengths the truncated size is smaller than the
      header plus the payload: a 2^32 - 1 byte payload gets a 16-byte entry,
      so the payload would be copied past the space requested for it. */
  lemma SysexEntrySizeAsWrittenWraps()
    ensures SysexEntrySizeAsWritten(TWO_32 - 1) == SYSEX_MESSAGE_HEADER_SIZE
    ensures SysexEntrySizeAsWritten(TWO_32 - 1) < SYSEX_MESSAGE_HEADER_SIZE + (TWO_32 - 1)
  {
  }

  /** Below 2^32 the truncated entry size is the exact one. */
  lemma SysexEntrySizeAsWrittenAgrees(dataLength: uint32)
    requires SysexEntrySize(dataLength) < TWO_32
    ensures SysexEntrySizeAsWritten(dataLength) == SysexEntrySize(dataLength)
  {
  }

  /** The bytes a push stores: the short-message entry, or the sysex header
      followed by the payload (the alignment bytes after it are not written). */
  function EntryBytes(e: MidiEvent): (s: seq<Byte>)
    ensures |s| <= EntrySize(e)
  {
    match e
    case ShortMessage(timestamp, data) =>
      Encode32(SHORT_MESSAGE_TYPE) + Encode32(data) + Encode64(timestamp)
    case SysexMessage(timestamp, data) =>
      Encode32(SYSEX_MESSAGE_TYPE) + Encode32(|data|) + Encode64(timestamp) + data
  }

  /** The bytes of a `PadHeader`. */
  function PadHeaderBytes(): (s: seq<Byte>)
    ensures |s| == PAD_HEADER_SIZE
  {
    Encode32(PAD_TYPE)
  }

  /** `memcpy` of `bytes` to offset `p` of the buffer `mem`. */
  function WriteBytes(mem: seq<Byte>, p: nat, bytes: seq<Byte>): (r: seq<Byte>)
    requires p + |bytes| <= |mem|
    ensures |r| == |mem|
    ensures r[p..p + |bytes|] == bytes
    ensures forall i :: 0 <= i < |mem| && !(p <= i < p + |bytes|) ==> r[i] == mem[i]
  {
    mem[..p] + bytes + mem[p + |bytes|..]
  }

  /** What the reader finds at an offset: an entry with its size, or a pad
      marker. */
  datatype Item = Entry(event: MidiEvent, size: nat) | PadMarker

  /** The bytes an item occupies from its offset on that the reader looks at. */
  function Extent(item: Item): nat {
    match item
    case Entry(_, size) => size
    case PadMarker => PAD_HEADER_SIZE
  }

  /** The item at offset `p`, read as `retieveEvents`, `getEventTimestamp`,
      `getEventData` and `nextEvent` read it: the event type decides between
      a pad marker, a sysex entry and (for any other value) a short-message
      entry. `None` when the item would not fit before the end of the
      buffer. */
  function ItemAt(mem: seq<Byte>, p: nat): (r: Option<Item>)
    ensures r.Some? ==> p + Extent(r.value) <= |mem|
    ensures r.Some? && r.value.Entry? ==>
              SHORT_MESSAGE_ENTRY_SIZE <= r.value.size && r.value.size % QUINT32_SIZE == 0
  {
    if |mem| < p + PAD_HEADER_SIZE then None
    else
      var eventType := Decode32(mem[p..p + 4]);
      if eventType == PAD_TYPE then Some(PadMarker)
      else if |mem| < p + SHORT_MESSAGE_ENTRY_SIZE then None
      else
        var field := Decode32(mem[p + 4..p + 8]);
        var timestamp := Decode64(mem[p + 8..p + 16]);
        if eventType == SYSEX_MESSAGE_TYPE then
          var size := SYSEX_MESSAGE_HEADER_SIZE + AlignSysexDataLength(field);
          if |mem| < p + size then None
          else Some(Entry(SysexMessage(timestamp, mem[p + 16..p + 16 + field]), size))
        else Some(Entry(ShortMessage(timestamp, field), SHORT_MESSAGE_ENTRY_SIZE))
  }

  /** A slice of a slice is a slice. */
  lemma SubSlice(m: seq<Byte>, p: nat, q: nat, i: nat, j: nat)
    requires p + j <= q <= |m| && i <= j
    ensures m[p + i..p + j] == m[p..q][i..j]
  {
    forall k | 0 <= k < j - i
      ensures m[p + i..p + j][k] == m[p..q][i..j][k]
    {
    }
  }

  /** The item at `p` depends only on the bytes of its extent. */
  lemma ItemAtFrame(m1: seq<Byte>, m2: seq<Byte>, p: nat)
    requires |m1| == |m2| && ItemAt(m1, p).Some?
    requires m1[p..p + Extent(ItemAt(m1, p).value)] == m2[p..p + Extent(ItemAt(m1, p).value)]
    ensures ItemAt(m2, p) == ItemAt(m1, p)
  {
    var q := p + Extent(ItemAt(m1, p).value);
    SubSlice(m1, p, q, 0, 4);
    SubSlice(m2, p, q, 0, 4);
    if ItemAt(m1, p).value.Entry? {
      SubSlice(m1, p, q, 4, 8);
      SubSlice(m2, p, q, 4, 8);
      SubSlice(m1, p, q, 8, 16);
      SubSlice(m2, p, q, 8, 16);
      if Decode32(m1[p..p + 4]) == SYSEX_MESSAGE_TYPE {
        var field: int := Decode32(m1[p + 4..p + 8]);
        SubSlice(m1, p, q, 16, 16 + field);
        SubSlice(m2, p, q, 16, 16 + field);
      }
    }
  }

  /** A write to offsets outside an item's extent leaves the item as it was. */
  lemma ItemAtWriteFrame(mem: seq<Byte>, p: nat, q: nat, bytes: seq<Byte>)
    requires ItemAt(mem, p).Some? && q + |bytes| <= |mem|
    requires p + Extent(ItemAt(mem, p).value) <= q || q + |bytes| <= p
    ensures ItemAt(WriteBytes(mem, q, bytes), p) == ItemAt(mem, p)
  {
    var m := WriteBytes(mem, q, bytes);
    var e := p + Extent(ItemAt(mem, p).value);
    forall k | 0 <= k < e - p
      ensures m[p..e][k] == mem[p..e][k]
    {
      assert m[p + k] == mem[p + k];
    }
    ItemAtFrame(mem, m, p);
  }

  /** The value of an entry's event-type field. */
  function EventType(e: MidiEvent): uint32 {
    if e.ShortMessage? then SHORT_MESSAGE_TYPE else SYSEX_MESSAGE_TYPE
  }

  /** The value of an entry's second field: the short message, or the sysex
      payload length. */
  function EventField(e: MidiEvent): uint32 {
    if e.ShortMessage? then e.shortMessageData else |e.sysexData|
  }

  /** The fields of an entry's bytes: the event type, the data or length
      field and the timestamp in little-endian order, then any payload. */
  lemma EntryBytesFields(e: MidiEvent)
    ensures SHORT_MESSAGE_ENTRY_SIZE <= |EntryBytes(e)|
    ensures EntryBytes(e)[..4] == Encode32(EventType(e))
    ensures EntryBytes(e)[4..8] == Encode32(EventField(e))
    ensures EntryBytes(e)[8..16] == Encode64(e.timestamp)
    ensures e.SysexMessage? ==> EntryBytes(e)[16..] == e.sysexData
  {
  }

  /** The bytes a write stores read back from the buffer. */
  lemma WrittenSlice(mem: seq<Byte>, p: nat, bytes: seq<Byte>, i: nat, j: nat)
    requires p + |bytes| <= |mem| && i <= j <= |bytes|
    ensures WriteBytes(mem, p, bytes)[p + i..p + j] == bytes[i..j]
  {
    SubSlice(WriteBytes(mem, p, bytes), p, p + |bytes|, i, j);
  }

  /** The reader decodes an entry from its fields. */
  lemma ItemAtFields(m: seq<Byte>, p: nat, e: MidiEvent)
    requires p + EntrySize(e) <= |m|
    requires Decode32(m[p..p + 4]) == EventType(e)
    requires Decode32(m[p + 4..p + 8]) == EventField(e)
    requires Decode64(m[p + 8..p + 16]) == e.timestamp
    requires e.SysexMessage? ==> m[p + 16..p + 16 + |e.sysexData|] == e.sysexData
    ensures ItemAt(m, p) == Some(Entry(e, EntrySize(e)))
  {
  }

  /** After an entry is written, its header fields decode to the event's
      type, field and timestamp. */
  lemma WrittenHeader(mem: seq<Byte>, p: nat, e: MidiEvent)
    requires p + EntrySize(e) <= |mem|
    ensures var m := WriteBytes(mem, p, EntryBytes(e));
      && Decode32(m[p..p + 4]) == EventType(e)
      && Decode32(m[p + 4..p + 8]) == EventField(e)
      && Decode64(m[p + 8..p + 16]) == e.timestamp
  {
    var bytes := EntryBytes(e);
    EntryBytesFields(e);
    WrittenSlice(mem, p, bytes, 0, 4);
    WrittenSlice(mem, p, bytes, 4, 8);
    WrittenSlice(mem, p, bytes, 8, 16);
    assert bytes[0..4] == bytes[..4];
    Decode32Encode32(EventType(e));
    Decode32Encode32(EventField(e));
    Decode64Encode64(e.timestamp);
  }

  /** After a sysex entry is written, its payload follows the header. */
  lemma WrittenPayload(mem: seq<Byte>, p: nat, e: MidiEvent)
    requires p + EntrySize(e) <= |mem| && e.SysexMessage?
    ensures WriteBytes(mem, p, EntryBytes(e))[p + 16..p + 16 + |e.sysexData|] == e.sysexData
  {
    var bytes := EntryBytes(e);
    EntryBytesFields(e);
    WrittenSlice(mem, p, bytes, 16, |bytes|);
    assert bytes[16..|bytes|] == bytes[16..];
  }

  /** Round trip of one push: the item stored by writing an event's bytes is
      read back as that event, with the entry size the writer advanced by. */
  lemma ItemAtEntryBytes(mem: seq<Byte>, p: nat, e: MidiEvent)
    requires p + EntrySize(e) <= |mem|
    ensures ItemAt(WriteBytes(mem, p, EntryBytes(e)), p) == Some(Entry(e, EntrySize(e)))
  {
    WrittenHeader(mem, p, e);
    if e.SysexMessage? {
      WrittenPayload(mem, p, e);
    }
    ItemAtFields(WriteBytes(mem, p, EntryBytes(e)), p, e);
  }

  /** The reader view of the memory after an entry is stored finds the
      entry where it was stored. */
  lemma ReadAtEntry(mem: seq<Byte>, p: nat, e: MidiEvent)
    requires p + EntrySize(e) <= |mem|
    ensures p < |mem| && ReadAt(WriteBytes(mem, p, EntryBytes(e)))[p] == Some(Entry(e, EntrySize(e)))
  {
    ItemAtEntryBytes(mem, p, e);
    ReadAtReads(WriteBytes(mem, p, EntryBytes(e)));
  }

  /** The entry size `nextEvent` computes from the header at offset `p`:
      the truncated sysex size for a sysex entry, the short-message entry
      size for any other event type. */
  function EntrySizeAt(mem: seq<Byte>, p: nat): uint32
    requires p + 8 <= |mem|
  {
    if Decode32(mem[p..p + 4]) == SYSEX_MESSAGE_TYPE then SysexEntrySizeAsWritten(Decode32(mem[p + 4..p + 8]))
    else SHORT_MESSAGE_ENTRY_SIZE
  }

  /** The entry size `nextEvent` computes is a whole number of `quint32`s,
      truncated or not. */
  lemma EntrySizeAtAligned(mem: seq<Byte>, p: nat)
    requires p + 8 <= |mem|
    ensures EntrySizeAt(mem, p) % QUINT32_SIZE == 0
  {
    var n := SYSEX_MESSAGE_HEADER_SIZE + AlignSysexDataLength(Decode32(mem[p + 4..p + 8]));
    assert n % TWO_32 == n - (n / TWO_32) * TWO_32;
  }

  /** What the field reads of `retieveEvents`, `getEventTimestamp`,
      `getEventData` and `nextEvent` find at an item the reader decoded: the
      event type tells pad markers, sysex entries and short-message entries
      apart, an entry's fields give back its event, and the truncated sysex
      size `nextEvent` computes is the entry's size. */
  lemma ItemAtDecoded(mem: seq<Byte>, p: nat, item: Item)
    requires |mem| < TWO_32 && ItemAt(mem, p) == Some(item)
    ensures p + PAD_HEADER_SIZE <= |mem|
    ensures item.PadMarker? <==> Decode32(mem[p..p + 4]) == PAD_TYPE
    ensures item.Entry? ==>
              && p + SHORT_MESSAGE_ENTRY_SIZE <= |mem|
              && (item.event.SysexMessage? <==> Decode32(mem[p..p + 4]) == SYSEX_MESSAGE_TYPE)
              && Decode32(mem[p + 4..p + 8]) == EventField(item.event)
              && Decode64(mem[p + 8..p + 16]) == item.event.timestamp
    ensures item.Entry? && item.event.ShortMessage? ==> item.size == SHORT_MESSAGE_ENTRY_SIZE
    ensures item.Entry? && item.event.SysexMessage? ==>
              && p + SYSEX_MESSAGE_HEADER_SIZE + |item.event.sysexData| <= |mem|
              && mem[p + 16..p + 16 + |item.event.sysexData|] == item.event.sysexData
              && item.size == SysexEntrySizeAsWritten(|item.event.sysexData|)
    ensures item.Entry? ==> item.size == EntrySizeAt(mem, p)
  {
    if item.Entry? && item.event.SysexMessage? {
      SysexEntrySizeAsWrittenAgrees(|item.event.sysexData|);
    }
  }

  /** A pad header is read back as a pad marker. */
  lemma ItemAtPadHeader(mem: seq<Byte>, p: nat)
    requires p + PAD_HEADER_SIZE <= |mem|
    ensures ItemAt(WriteBytes(mem, p, PadHeaderBytes()), p) == Some(PadMarker)
  {
    Decode32Encode32(PAD_TYPE);
  }

  /** The offset `len` bytes after offset `p` in the ring. */
  function Next(p: nat, len: nat): (q: nat)
    requires p < BUFFER_SIZE && len <= BUFFER_SIZE
    ensures q < BUFFER_SIZE
  {
    if p + len < BUFFER_SIZE then p + len else p + len - BUFFER_SIZE
  }

  /** Going forward by whole `quint32`s from an aligned offset keeps it
      aligned, since the buffer is a whole number of them. */
  lemma NextAligned(p: nat, len: nat)
    requires p < BUFFER_SIZE && len <= BUFFER_SIZE
    requires p % QUINT32_SIZE == 0 && len % QUINT32_SIZE == 0
    ensures Next(p, len) % QUINT32_SIZE == 0
  {
  }

  /** How many bytes the ring goes forward from offset `p` to offset `q`. */
  function Distance(p: nat, q: nat): (d: nat)
    requires p < BUFFER_SIZE && q < BUFFER_SIZE
    ensures d < BUFFER_SIZE && Next(p, d) == q
  {
    if p <= q then q - p else q + BUFFER_SIZE - p
  }

  /** Going `a` and then `b` bytes forward is going `a + b` bytes forward. */
  lemma NextNext(p: nat, a: nat, b: nat)
    requires p < BUFFER_SIZE && a + b <= BUFFER_SIZE
    ensures Next(Next(p, a), b) == Next(p, a + b)
  {
  }

  /** Less than a lap forward, the distance is the bytes gone. */
  lemma DistanceNext(p: nat, d: nat)
    requires p < BUFFER_SIZE && d < BUFFER_SIZE
    ensures Distance(p, Next(p, d)) == d
  {
  }

  /** How far the reader moves past an item at offset `k`: the entry's
      size, or the rest of the buffer for a pad marker. */
  function Reach(k: nat, item: Item): nat {
    match item
    case Entry(_, size) => size
    case PadMarker => if k < BUFFER_SIZE then BUFFER_SIZE - k else 0
  }

  /** The events the reader takes from an item: an entry's event, none from
      a pad marker. */
  function Head(item: Item): (r: seq<MidiEvent>)
    ensures |r| <= 1
  {
    if item.Entry? then [item.event] else []
  }

  /** The events the reader takes from a run of items, in order. */
  function EventsOf(items: seq<Item>): seq<MidiEvent> {
    if items == [] then [] else Head(items[0]) + EventsOf(items[1..])
  }

  /** The events of two runs of items read one after the other. */
  lemma {:induction false} EventsOfConcat(a: seq<Item>, b: seq<Item>)
    ensures EventsOf(a + b) == EventsOf(a) + EventsOf(b)
  {
    if a != [] {
      assert (a + b)[1..] == a[1..] + b;
      EventsOfConcat(a[1..], b);
    } else {
      assert a + b == b;
    }
  }

  /** Splitting a run of items splits its events. */
  lemma EventsOfSplit(items: seq<Item>, k: nat)
    requires k <= |items|
    ensures EventsOf(items) == EventsOf(items[..k]) + EventsOf(items[k..])
  {
    var front, back := items[..k], items[k..];
    assert front + back == items;
    EventsOfConcat(front, back);
  }

  /** A run whose first item is an entry starts with that entry's event; a
      pad marker contributes nothing. */
  lemma EventsOfFirst(items: seq<Item>)
    requires items != []
    ensures items[0].Entry? ==> EventsOf(items) != [] && EventsOf(items)[0] == items[0].event
    ensures items[0].Entry? ==> EventsOf(items)[1..] == EventsOf(items[1..])
    ensures items[0].PadMarker? ==> EventsOf(items) == EventsOf(items[1..])
  {
    var rest := EventsOf(items[1..]);
    assert EventsOf(items) == Head(items[0]) + rest;
    if items[0].Entry? {
      assert ([items[0].event] + rest)[1..] == rest;
    } else {
      assert [] + rest == rest;
    }
  }

  /** What the reader finds at each offset of a buffer. The layout lemmas
      below are stated for any reader; `Reads` ties one to a buffer. */
  type Reader = seq<Option<Item>>

  /** The items found at the offsets from `k` to the end of `mem`. */
  function ReadFrom(mem: seq<Byte>, k: nat): (read: Reader)
    ensures |read| == if k <= |mem| then |mem| - k else 0
    decreases |mem| - k
  {
    if |mem| <= k then [] else [ItemAt(mem, k)] + ReadFrom(mem, k + 1)
  }

  function ReadAt(mem: seq<Byte>): (read: Reader)
    ensures |read| == |mem|
  {
    ReadFrom(mem, 0)
  }

  /** `read` finds at every offset what `ItemAt` decodes from `mem`. */
  ghost predicate Reads(read: Reader, mem: seq<Byte>) {
    && |read| == |mem|
    && forall k {:trigger ItemAt(mem, k)} :: 0 <= k < |mem| ==> read[k] == ItemAt(mem, k)
  }

  lemma {:induction false} ReadFromItem(mem: seq<Byte>, k: nat, i: nat)
    requires k <= i < |mem|
    ensures ReadFrom(mem, k)[i - k] == ItemAt(mem, i)
    decreases i - k
  {
    if k < i {
      ReadFromItem(mem, k + 1, i);
      assert ReadFrom(mem, k)[i - k] == ReadFrom(mem, k + 1)[i - (k + 1)];
    }
  }

  lemma ReadAtReads(mem: seq<Byte>)
    ensures Reads(ReadAt(mem), mem)
  {
    forall i | 0 <= i < |mem|
      ensures ReadAt(mem)[i] == ItemAt(mem, i)
    {
      ReadFromItem(mem, 0, i);
    }
  }

  /** The item at offset `k` is read as `item`, and the reader can step past
      it: it takes some space and ends at or before the end of the buffer. */
  ghost predicate Placed(read: Reader, k: nat, item: Item) {
    k < |read| && read[k] == Some(item) && 0 < Reach(k, item) && k + Reach(k, item) <= BUFFER_SIZE
  }

  /** The run `items` laid out over the `len` bytes of the ring from offset
      `p` on: the first item is found at `p`, and the rest are laid out from
      where the reader leaves it. */
  ghost predicate Laid(read: Reader, p: nat, items: seq<Item>, len: nat)
    decreases |items|
  {
    && p < BUFFER_SIZE && len <= BUFFER_SIZE
    && if items == [] then len == 0
       else
         && Placed(read, p, items[0]) && Reach(p, items[0]) <= len
         && Laid(read, Next(p, Reach(p, items[0])), items[1..], len - Reach(p, items[0]))
  }

  /** A laid run holds items exactly when it takes space. */
  lemma LaidNonEmpty(read: Reader, p: nat, items: seq<Item>, len: nat)
    requires Laid(read, p, items, len)
    ensures items != [] <==> 0 < len
  {
  }

  /** A run laid where another ends continues it. */
  lemma {:induction false} LaidConcat(read: Reader, p: nat, a: seq<Item>, la: nat, b: seq<Item>, lb: nat)
    requires Laid(read, p, a, la) && Laid(read, Next(p, la), b, lb) && la + lb <= BUFFER_SIZE
    ensures Laid(read, p, a + b, la + lb)
    decreases |a|
  {
    if a == [] {
      assert a + b == b;
    } else {
      var reach := Reach(p, a[0]);
      NextNext(p, reach, la - reach);
      LaidConcat(read, Next(p, reach), a[1..], la - reach, b, lb);
      assert (a + b)[0] == a[0] && (a + b)[1..] == a[1..] + b;
    }
  }

  /** An item placed where a run ends extends it. */
  lemma LaidAppend(read: Reader, p: nat, items: seq<Item>, len: nat, item: Item)
    requires Laid(read, p, items, len) && len < BUFFER_SIZE && Placed(read, Next(p, len), item)
    requires len + Reach(Next(p, len), item) <= BUFFER_SIZE
    ensures Laid(read, p, items + [item], len + Reach(Next(p, len), item))
  {
    var q := Next(p, len);
    assert Laid(read, Next(q, Reach(q, item)), [item][1..], 0);
    LaidConcat(read, p, items, len, [item], Reach(q, item));
  }

  /** How many of the items of a run laid from offset `p` lie before the end
      of the buffer: the reader walks the run until it reaches the end. */
  function ItemsToEnd(p: nat, items: seq<Item>): (k: nat)
    ensures k <= |items|
    decreases |items|
  {
    if items == [] || BUFFER_SIZE <= p then 0
    else
      var q := p + Reach(p, items[0]);
      if BUFFER_SIZE <= q then 1 else 1 + ItemsToEnd(q, items[1..])
  }

  /** A run whose first item reaches the end of the buffer splits there
      into that item and the rest laid from offset zero. */
  lemma BoundaryAtHead(read: Reader, p: nat, items: seq<Item>, len: nat)
    requires Laid(read, p, items, len) && items != [] && Reach(p, items[0]) == BUFFER_SIZE - p
    ensures Laid(read, p, items[..1], BUFFER_SIZE - p)
    ensures Laid(read, 0, items[1..], len - (BUFFER_SIZE - p))
  {
    assert Next(p, BUFFER_SIZE - p) == 0;
    assert items[..1][0] == items[0] && items[..1][1..] == [];
  }

  /** A run whose first item ends before the end of the buffer splits there
      as the rest of the run does, one item later. */
  lemma BoundaryPastHead(read: Reader, p: nat, items: seq<Item>, len: nat, j: nat)
    requires Laid(read, p, items, len) && items != [] && Reach(p, items[0]) < BUFFER_SIZE - p <= len
    requires j < |items|
    requires Laid(read, p + Reach(p, items[0]), items[1..][..j], BUFFER_SIZE - (p + Reach(p, items[0])))
    requires Laid(read, 0, items[1..][j..], (len - Reach(p, items[0])) - (BUFFER_SIZE - (p + Reach(p, items[0]))))
    ensures Laid(read, p, items[..j + 1], BUFFER_SIZE - p)
    ensures Laid(read, 0, items[j + 1..], len - (BUFFER_SIZE - p))
  {
    assert Next(p, Reach(p, items[0])) == p + Reach(p, items[0]);
    assert items[..j + 1][0] == items[0] && items[..j + 1][1..] == items[1..][..j];
    assert items[j + 1..] == items[1..][j..];
  }

  /** A run that reaches the end of the buffer has an item boundary there:
      no item straddles the end, and the rest of the run starts at offset
      zero. */
  lemma {:induction false} LaidBoundary(read: Reader, p: nat, items: seq<Item>, len: nat)
    requires Laid(read, p, items, len) && BUFFER_SIZE - p <= len
    ensures var k := ItemsToEnd(p, items);
      && Laid(read, p, items[..k], BUFFER_SIZE - p)
      && Laid(read, 0, items[k..], len - (BUFFER_SIZE - p))
    decreases |items|
  {
    var reach := Reach(p, items[0]);
    if reach == BUFFER_SIZE - p {
      BoundaryAtHead(read, p, items, len);
    } else {
      assert Next(p, reach) == p + reach;
      LaidBoundary(read, p + reach, items[1..], len - reach);
      BoundaryPastHead(read, p, items, len, ItemsToEnd(p + reach, items[1..]));
    }
  }

  /** A write that starts no closer than `len` bytes after `p`, and ends
      before the ring comes back to `p`, leaves a run laid over those `len`
      bytes as it was. */
  lemma {:induction false} LaidFrame(read: Reader, mem: seq<Byte>, p: nat, items: seq<Item>, len: nat,
                                     q: nat, bytes: seq<Byte>, read': Reader)
    requires |mem| == BUFFER_SIZE && Reads(read, mem) && Laid(read, p, items, len)
    requires q < BUFFER_SIZE && q + |bytes| <= BUFFER_SIZE
    requires len <= Distance(p, q) && Distance(p, q) + |bytes| <= BUFFER_SIZE
    requires Reads(read', WriteBytes(mem, q, bytes))
    ensures Laid(read', p, items, len)
    decreases |items|
  {
    if items != [] {
      var reach := Reach(p, items[0]);
      assert ItemAt(mem, p) == read[p];
      ItemAtWriteFrame(mem, p, q, bytes);
      assert read'[p] == ItemAt(WriteBytes(mem, q, bytes), p);
      var p' := Next(p, reach);
      NextNext(p, reach, Distance(p, q) - reach);
      DistanceNext(p', Distance(p, q) - reach);
      LaidFrame(read, mem, p', items[1..], len - reach, q, bytes, read');
    }
  }
}
