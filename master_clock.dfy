/** The arithmetic of the master clock: conversion between a POSIX `timespec`
    and signed 64-bit nanoseconds, the millisecond count the Windows build
    sleeps for, and the extension of the 32-bit multimedia-timer millisecond
    count to a 64-bit counter. Calls into the operating system are left to
    the caller: their results are parameters here. */
module MasterClock {
  import opened CppArith

  const MILLIS_PER_SECOND: int := 1000
  const NANOS_PER_MILLISECOND: int := 1_000_000
  const NANOS_PER_SECOND: int := 1_000_000_000

  /** `MasterClockNanos` / `qint64`. */
  type Int64 = x: int | -0x8000_0000_0000_0000 <= x < 0x8000_0000_0000_0000

  datatype Timespec = Timespec(tvSec: int, tvNsec: int)

  /** A timespec as produced by the operating system: a non-negative second
      count and a nanosecond part below one second. */
  predicate Normalized(ts: Timespec) {
    0 <= ts.tvSec && 0 <= ts.tvNsec < NANOS_PER_SECOND
  }

  /** `timespecToNanos`: whole seconds scaled to nanoseconds plus the
      nanosecond part. */
  function TimespecToNanos(ts: Timespec): (r: int)
    ensures Normalized(ts) ==> 0 <= r && ts.tvSec * NANOS_PER_SECOND <= r < ts.tvSec * NANOS_PER_SECOND + NANOS_PER_SECOND
  {
    ts.tvSec * NANOS_PER_SECOND + ts.tvNsec
  }

  /** `nanosToTimespec`: fills the timespec with C++ (truncating) quotient and
      remainder by one second. The result always converts back to `nanos`,
      and its nanosecond part has the sign of `nanos` and stays below one
      second in magnitude. */
  method NanosToTimespec(nanos: Int64) returns (ts: Timespec)
    ensures TimespecToNanos(ts) == nanos
    ensures nanos >= 0 ==> Normalized(ts)
    ensures nanos < 0 ==> ts.tvSec <= 0 && -NANOS_PER_SECOND < ts.tvNsec <= 0
  {
    ts := Timespec(TruncDiv(nanos, NANOS_PER_SECOND), TruncMod(nanos, NANOS_PER_SECOND));
  }

  /** The other direction of the round trip: a normalized timespec survives
      conversion to nanoseconds and back. */
  lemma TimespecRoundTrip(ts: Timespec)
    requires Normalized(ts)
    ensures TruncDiv(TimespecToNanos(ts), NANOS_PER_SECOND) == ts.tvSec
    ensures TruncMod(TimespecToNanos(ts), NANOS_PER_SECOND) == ts.tvNsec
  {
    var n := TimespecToNanos(ts);
    var q := TruncDiv(n, NANOS_PER_SECOND);
    assert NANOS_PER_SECOND * q <= n < NANOS_PER_SECOND * q + NANOS_PER_SECOND;
    assert NANOS_PER_SECOND * ts.tvSec <= n < NANOS_PER_SECOND * ts.tvSec + NANOS_PER_SECOND;
  }

  /** On normalized timespecs the nanosecond value orders times
      lexicographically by (seconds, nanoseconds). */
  lemma TimespecOrder(a: Timespec, b: Timespec)
    requires Normalized(a) && Normalized(b)
    ensures TimespecToNanos(a) < TimespecToNanos(b) <==>
            a.tvSec < b.tvSec || (a.tvSec == b.tvSec && a.tvNsec < b.tvNsec)
  {
    if a.tvSec < b.tvSec {
      assert a.tvSec * NANOS_PER_SECOND + NANOS_PER_SECOND <= b.tvSec * NANOS_PER_SECOND;
    } else if a.tvSec > b.tvSec {
      assert b.tvSec * NANOS_PER_SECOND + NANOS_PER_SECOND <= a.tvSec * NANOS_PER_SECOND;
    }
  }

  /** The Windows `sleepForNanos` argument: `DWORD(qMax(1LL, nanos / 1e6))`.
      Below 2^32 milliseconds the sleep lasts at least one millisecond and,
      from one millisecond on, the whole milliseconds contained in `nanos`.
      The `DWORD` cast keeps only the low 32 bits of larger values. */
  function SleepMillis(nanos: Int64): (ms: uint32)
    ensures nanos < TWO_32 * NANOS_PER_MILLISECOND ==> 1 <= ms
    ensures NANOS_PER_MILLISECOND <= nanos < TWO_32 * NANOS_PER_MILLISECOND ==>
              ms * NANOS_PER_MILLISECOND <= nanos < (ms + 1) * NANOS_PER_MILLISECOND
    ensures nanos < 2 * NANOS_PER_MILLISECOND ==> ms == 1
  {
    Max(1, TruncDiv(nanos, NANOS_PER_MILLISECOND)) % TWO_32
  }

  /** `LARGE_INTEGER` seen as its two halves; `QuadPart` is their combination. */
  datatype LargeInteger = LargeInteger(lowPart: uint32, highPart: int)

  function QuadPart(c: LargeInteger): int {
    c.highPart * TWO_32 + c.lowPart
  }

  /** The wrap-extension step of `getClockNanos`: the high word is bumped when
      the new 32-bit reading is below the stored low word, then the low word
      takes the new reading. */
  function ExtendCounter(c: LargeInteger, currentTime: uint32): (r: LargeInteger)
    ensures r.lowPart == currentTime
    ensures r.highPart == c.highPart + 1 <==> currentTime < c.lowPart
    ensures r.highPart == c.highPart <==> currentTime >= c.lowPart
  {
    var snapshot := if currentTime < c.lowPart then c.(highPart := c.highPart + 1) else c;
    snapshot.(lowPart := currentTime)
  }

  /** The extended counter never goes back, and one step advances it by less
      than 2^32 milliseconds. */
  lemma ExtendCounterAdvance(c: LargeInteger, currentTime: uint32)
    ensures QuadPart(c) <= QuadPart(ExtendCounter(c, currentTime)) < QuadPart(c) + TWO_32
  {
  }

  /** If the counter holds the true millisecond time `t` and the 32-bit timer
      now reads `t + d` modulo 2^32 for some `d` below 2^32, the extended
      counter holds exactly `t + d`: the extension recovers the true time from
      readings taken less than 2^32 ms apart. */
  lemma ExtendCounterTracksTime(c: LargeInteger, t: int, d: nat)
    requires QuadPart(c) == t
    requires d < TWO_32
    ensures QuadPart(ExtendCounter(c, ((t + d) % TWO_32) as uint32)) == t + d
  {
    var now := (t + d) % TWO_32;
    assert t % TWO_32 == c.lowPart;
    if c.lowPart + d < TWO_32 {
      assert now == c.lowPart + d;
    } else {
      assert now == c.lowPart + d - TWO_32;
    }
  }

  /** The state the Windows multimedia-timer fallback keeps: the static
      `counter` and the `startTime` that `init` read from `timeGetTime`. */
  class MultimediaTimer {
    var counter: LargeInteger
    var startTime: int

    /** `init` without a high-resolution counter: `startTime` is the first
        timer reading and `counter` starts zeroed. */
    constructor (firstReading: uint32)
      ensures counter == LargeInteger(0, 0) && startTime == firstReading
    {
      counter := LargeInteger(0, 0);
      startTime := firstReading;
    }

    /** Elapsed nanoseconds since `init` as the fallback clock reports them. */
    function ElapsedNanos(): (r: int)
      reads this
      ensures r % NANOS_PER_MILLISECOND == 0
      ensures startTime <= QuadPart(counter) ==> 0 <= r
    {
      (QuadPart(counter) - startTime) * NANOS_PER_MILLISECOND
    }

    /** The fallback branch of `getClockNanos`, given the current `timeGetTime`
        reading: the counter is extended and the elapsed time since `init` is
        returned in nanoseconds, never less than at the previous call. */
    method GetClockNanos(currentTime: uint32) returns (nanos: int)
      modifies this`counter
      ensures counter == ExtendCounter(old(counter), currentTime)
      ensures nanos == ElapsedNanos()
      ensures old(ElapsedNanos()) <= nanos < old(ElapsedNanos()) + TWO_32 * NANOS_PER_MILLISECOND
    {
      var counterSnapshot := counter;
      if currentTime < counterSnapshot.lowPart {
        counterSnapshot := counterSnapshot.(highPart := counterSnapshot.highPart + 1);
      }
      counterSnapshot := counterSnapshot.(lowPart := currentTime);
      counter := counterSnapshot;
      ExtendCounterAdvance(old(counter), currentTime);
      nanos := (QuadPart(counterSnapshot) - startTime) * NANOS_PER_MILLISECOND;
    }
  }
}
