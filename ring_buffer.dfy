/** The single-reader single-writer byte ring that `QMidiBuffer` lays its
    entries in. Its implementation is not part of this model; the class below
    states the contract `QMidiBuffer` relies on: a buffer of `BUFFER_SIZE`
    bytes with a read and a write position, equal positions meaning empty, so
    that one byte always stays free. */
module RingBuffers {
  import opened MidiLayout

  /** Writing `n` more bytes adds them to the bytes in use. */
  lemma DistanceAdvanceWrite(r: nat, w: nat, n: nat)
    requires r < BUFFER_SIZE && w < BUFFER_SIZE && Distance(r, w) + n < BUFFER_SIZE
    ensures Distance(r, Next(w, n)) == Distance(r, w) + n
  {
  }

  /** Reading `n` of the bytes in use removes them. */
  lemma DistanceAdvanceRead(r: nat, w: nat, n: nat)
    requires r < BUFFER_SIZE && w < BUFFER_SIZE && n <= Distance(r, w)
    ensures Distance(Next(r, n), w) == Distance(r, w) - n
  {
  }

  /** The space the writer is offered: how many bytes, and whether they are
      all the free space or only the part up to the end of the buffer. */
  datatype Space = Space(bytesFree: nat, contiguous: bool)

  /** The space offered for read position `r` and write position `w`: all
      the free space but one byte when it is contiguous (the reader is ahead
      of the writer, or at the start of the buffer), otherwise the part up to
      the end of the buffer. */
  function FreeSpace(r: nat, w: nat): (space: Space)
    requires r < BUFFER_SIZE && w < BUFFER_SIZE
    ensures w + space.bytesFree <= BUFFER_SIZE && Distance(r, w) + space.bytesFree < BUFFER_SIZE
    ensures space.contiguous <==> r == 0 || w < r
    ensures space.contiguous ==> Distance(r, w) + space.bytesFree == BUFFER_SIZE - 1
    ensures !space.contiguous ==> w + space.bytesFree == BUFFER_SIZE
  {
    if w < r then Space(r - w - 1, true)
    else if r == 0 then Space(BUFFER_SIZE - w - 1, true)
    else Space(BUFFER_SIZE - w, false)
  }

  /** The bytes offered to the reader: all the bytes in use when they are
      contiguous, otherwise the part up to the end of the buffer. */
  function Readable(r: nat, w: nat): (n: nat)
    requires r < BUFFER_SIZE && w < BUFFER_SIZE
    ensures r + n <= BUFFER_SIZE && n <= Distance(r, w)
    ensures r <= w ==> n == Distance(r, w)
    ensures w < r ==> r + n == BUFFER_SIZE
  {
    if r <= w then w - r else BUFFER_SIZE - r
  }

  class RingBuffer {
    const buffer: array<Byte>
    var readPosition: nat
    var writePosition: nat

    ghost predicate Valid()
      reads this
    {
      buffer.Length == BUFFER_SIZE && readPosition < BUFFER_SIZE && writePosition < BUFFER_SIZE
    }

    /** The bytes written and not yet read. */
    function Used(): nat
      requires Valid()
      reads this
    {
      Distance(readPosition, writePosition)
    }

    /** An empty ring of `BUFFER_SIZE` zero bytes. */
    constructor ()
      ensures Valid() && fresh(buffer)
      ensures readPosition == 0 && writePosition == 0 && Used() == 0
    {
      buffer := new Byte[BUFFER_SIZE](_ => 0);
      readPosition := 0;
      writePosition := 0;
    }

    /** Where the writer may write and how much. */
    method WritePointer() returns (p: nat, bytesFree: nat, contiguous: bool)
      requires Valid()
      ensures p == writePosition && Space(bytesFree, contiguous) == FreeSpace(readPosition, writePosition)
    {
      p := writePosition;
      if writePosition < readPosition {
        bytesFree, contiguous := readPosition - writePosition - 1, true;
      } else if readPosition == 0 {
        bytesFree, contiguous := BUFFER_SIZE - writePosition - 1, true;
      } else {
        bytesFree, contiguous := BUFFER_SIZE - writePosition, false;
      }
    }

    /** Commits `n` written bytes. */
    method AdvanceWritePointer(n: nat)
      requires Valid() && Used() + n < BUFFER_SIZE
      modifies this`writePosition
      ensures Valid() && writePosition == Next(old(writePosition), n)
      ensures Used() == old(Used()) + n
    {
      DistanceAdvanceWrite(readPosition, writePosition, n);
      writePosition := Next(writePosition, n);
    }

    /** Where the reader may read and how much. */
    method ReadPointer() returns (p: nat, bytesAvailable: nat)
      requires Valid()
      ensures p == readPosition && bytesAvailable == Readable(readPosition, writePosition)
    {
      p := readPosition;
      if readPosition <= writePosition {
        bytesAvailable := writePosition - readPosition;
      } else {
        bytesAvailable := BUFFER_SIZE - readPosition;
      }
    }

    /** Releases `n` read bytes to the writer. */
    method AdvanceReadPointer(n: nat)
      requires Valid() && n <= Used()
      modifies this`readPosition
      ensures Valid() && readPosition == Next(old(readPosition), n)
      ensures Used() == old(Used()) - n
    {
      DistanceAdvanceRead(readPosition, writePosition, n);
      readPosition := Next(readPosition, n);
    }
  }
}
