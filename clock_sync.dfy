/** The clock-offset and drift tracker used in advanced-timing-off mode: it
    maps readings of an external clock (here the rendered-frame position in
    nanoseconds) onto the master clock, averaging the offset between the two
    and re-estimating their relative drift periodically. */
module ClockSync {
  import opened CppArith
  import opened MasterClock

  /** The sum of a sequence of offsets. */
  function Sum(s: seq<int>): int {
    if s == [] then 0 else Sum(s[..|s| - 1]) + s[|s| - 1]
  }

  /** Recording one more offset adds it to the sum. */
  lemma {:induction false} SumAppend(s: seq<int>, x: int)
    ensures Sum(s + [x]) == Sum(s) + x
  {
    assert (s + [x])[..|s|] == s;
  }

  class ClockSync {
    var performResetOnNextSync: bool
    var periodicResetNanos: int
    var emergencyResetThresholdNanos: int
    var masterStart: int
    var externalStart: int
    var baseOffset: int
    var offsetSum: int
    var syncCount: nat
    var drift: real

    /** The `deltaOffset` of every sync since the last reset or rebase. */
    ghost var deltas: seq<int>

    /** `offsetSum` and `syncCount` are the sum and the number of the offsets
        recorded since the last reset or rebase. */
    ghost predicate Valid()
      reads this
    {
      offsetSum == Sum(deltas) && syncCount == |deltas|
    }

    /** A new tracker resets on its first sync, rebases every 2 s and resets
        when the offset jumps by more than 200 ms. The C++ constructor leaves
        the other fields uninitialised; the first sync assigns them all. */
    constructor ()
      ensures Valid()
      ensures performResetOnNextSync
      ensures periodicResetNanos == 2 * NANOS_PER_SECOND
      ensures emergencyResetThresholdNanos == 200 * NANOS_PER_MILLISECOND
    {
      performResetOnNextSync := true;
      periodicResetNanos := 2 * NANOS_PER_SECOND;
      emergencyResetThresholdNanos := 200 * NANOS_PER_MILLISECOND;
      masterStart, externalStart, baseOffset := 0, 0, 0;
      offsetSum, syncCount, drift := 0, 0, 0.0;
      deltas := [];
    }

    method ScheduleReset()
      modifies this`performResetOnNextSync
      ensures performResetOnNextSync
    {
      performResetOnNextSync := true;
    }

    /** The multiplicative drift of the external clock relative to the master
        clock: exactly one when no relative drift is recorded. */
    function GetDrift(): (d: real)
      reads this
      ensures d == 1.0 <==> drift == 0.0
    {
      1.0 + drift
    }

    /** Stores the first argument as the emergency threshold and the second as
        the rebase period. */
    method SetParams(useEmergencyResetThresholdNanos: int, usePeriodicResetNanos: int)
      modifies this`periodicResetNanos, this`emergencyResetThresholdNanos
      ensures periodicResetNanos == usePeriodicResetNanos
      ensures emergencyResetThresholdNanos == useEmergencyResetThresholdNanos
    {
      periodicResetNanos := usePeriodicResetNanos;
      emergencyResetThresholdNanos := useEmergencyResetThresholdNanos;
    }

    /** Everything but the two parameters is as it was in the previous state. */
    twostate predicate TrackingUnchanged()
      reads this
    {
      && performResetOnNextSync == old(performResetOnNextSync)
      && masterStart == old(masterStart) && externalStart == old(externalStart)
      && baseOffset == old(baseOffset) && offsetSum == old(offsetSum)
      && syncCount == old(syncCount) && drift == old(drift) && deltas == old(deltas)
    }

    /** The offset between the clocks extrapolated with the current drift to
        the given external-clock reading. */
    function CurrentOffset(externalNow: int): int
      reads this
    {
      baseOffset + TruncReal((externalNow - externalStart) as real * drift)
    }

    /** The master-clock time that `Sync` answers for these readings. */
    function Corrected(masterNow: int, externalNow: int): int
      reads this
    {
      if performResetOnNextSync then masterNow else externalNow - CurrentOffset(externalNow)
    }

    /** The difference of the clocks' offset from the base offset. */
    function DeltaOffset(masterNow: int, externalNow: int): int
      reads this
    {
      (externalNow - masterNow) - baseOffset
    }

    /** The drift a rebase computes: the average recorded offset, this sync's
        included, less the extrapolated offset, per nanosecond of the period. */
    ghost function RebasedDrift(masterNow: int, externalNow: int): real
      requires periodicResetNanos != 0
      reads this
    {
      var averaged := deltas + [DeltaOffset(masterNow, externalNow)];
      (baseOffset + TruncDiv(Sum(averaged), |averaged|) - CurrentOffset(externalNow)) as real / periodicResetNanos as real
    }

    /** A sync that rebases divides by `periodicResetNanos`; the C++ code would
        then produce an infinite or NaN drift when that period is zero. */
    predicate RebaseDefined(masterNow: int)
      reads this
    {
      !performResetOnNextSync && periodicResetNanos < masterNow - masterStart ==> periodicResetNanos != 0
    }

    /** The reset step of `sync`: both clocks are re-baselined at now with
        their current difference as the base offset, no drift and no recorded
        offsets, and the pending reset is cleared. */
    method ResetBaseline(masterNow: int, externalNow: int)
      modifies this`performResetOnNextSync, this`masterStart, this`externalStart, this`baseOffset,
               this`offsetSum, this`syncCount, this`drift, this`deltas
      ensures Valid() && !performResetOnNextSync
      ensures masterStart == masterNow && externalStart == externalNow
      ensures baseOffset == externalNow - masterNow
      ensures drift == 0.0 && deltas == []
    {
      masterStart := masterNow;
      externalStart := externalNow;
      baseOffset := externalNow - masterNow;
      offsetSum := 0;
      syncCount := 0;
      drift := 0.0;
      deltas := [];
      performResetOnNextSync := false;
    }

    /** The rebase step of `sync`: the drift becomes the distance from the
        extrapolated offset to the new base offset per nanosecond of the
        period, both clocks are re-baselined at now, the base offset becomes
        the extrapolated one and the recorded offsets are cleared. */
    method Rebase(masterNow: int, externalNow: int, newBaseOffset: int, currentOffset: int)
      requires periodicResetNanos != 0
      modifies this`masterStart, this`externalStart, this`baseOffset, this`offsetSum,
               this`syncCount, this`drift, this`deltas
      ensures Valid()
      ensures drift == (newBaseOffset - currentOffset) as real / periodicResetNanos as real
      ensures masterStart == masterNow && externalStart == externalNow
      ensures baseOffset == currentOffset && deltas == []
    {
      drift := (newBaseOffset - currentOffset) as real / periodicResetNanos as real;
      masterStart := masterNow;
      externalStart := externalNow;
      baseOffset := currentOffset;
      offsetSum := 0;
      syncCount := 0;
      deltas := [];
    }

    /** The tracking state a sync with these readings leaves behind. After a
        pending reset both clocks are re-baselined at now with no drift and
        the reset is cleared. Otherwise the offset jump schedules a reset
        exactly when it exceeds the threshold; after `periodicResetNanos` of
        master time the drift is re-estimated and both clocks are re-baselined
        at now with the extrapolated offset; before that the baseline and the
        drift stay and the offset is recorded. */
    twostate predicate Synced(masterNow: int, externalNow: int)
      requires old(RebaseDefined(masterNow))
      reads this
    {
      && (old(performResetOnNextSync) ==>
            && !performResetOnNextSync
            && masterStart == masterNow && externalStart == externalNow
            && baseOffset == externalNow - masterNow
            && offsetSum == 0 && syncCount == 0 && drift == 0.0 && deltas == []
            && GetDrift() == 1.0)
      && (!old(performResetOnNextSync) ==>
            performResetOnNextSync == (old(emergencyResetThresholdNanos) < Abs(old(DeltaOffset(masterNow, externalNow)))))
      && (!old(performResetOnNextSync) && old(periodicResetNanos) < masterNow - old(masterStart) ==>
            && drift == old(RebasedDrift(masterNow, externalNow))
            && masterStart == masterNow && externalStart == externalNow
            && baseOffset == old(CurrentOffset(externalNow))
            && offsetSum == 0 && syncCount == 0 && deltas == [])
      && (!old(performResetOnNextSync) && masterNow - old(masterStart) <= old(periodicResetNanos) ==>
            && drift == old(drift)
            && masterStart == old(masterStart) && externalStart == old(externalStart)
            && baseOffset == old(baseOffset)
            && deltas == old(deltas) + [old(DeltaOffset(masterNow, externalNow))])
    }

    /** The recording step of `sync`: the offset difference is added to the
        sum and counted, and the offset extrapolated with the current drift is
        answered beside it. */
    method RecordOffset(masterNow: int, externalNow: int) returns (deltaOffset: int, currentOffset: int)
      requires Valid()
      modifies this`offsetSum, this`syncCount, this`deltas
      ensures Valid()
      ensures deltaOffset == old(DeltaOffset(masterNow, externalNow)) && deltas == old(deltas) + [deltaOffset]
      ensures currentOffset == old(CurrentOffset(externalNow))
    {
      var externalElapsed := externalNow - externalStart;
      deltaOffset := (externalNow - masterNow) - baseOffset;
      offsetSum := offsetSum + deltaOffset;
      syncCount := syncCount + 1;
      deltas := deltas + [deltaOffset];
      SumAppend(old(deltas), deltaOffset);
      currentOffset := baseOffset + TruncReal(externalElapsed as real * drift);
    }

    /** `sync`: a pending reset re-baselines both clocks and answers
        `masterNow`; otherwise the offset is recorded, an offset jump beyond the
        emergency threshold schedules a reset for the next sync, and after
        `periodicResetNanos` of master time the drift is re-estimated from the
        average recorded offset and the baseline moves to now. */
    method Sync(masterNow: int, externalNow: int) returns (r: int)
      requires Valid() && RebaseDefined(masterNow)
      modifies this`performResetOnNextSync, this`masterStart, this`externalStart, this`baseOffset,
               this`offsetSum, this`syncCount, this`drift, this`deltas
      ensures Valid()
      ensures r == old(Corrected(masterNow, externalNow))
      ensures !old(performResetOnNextSync) ==> r == externalNow - old(CurrentOffset(externalNow))
      ensures Synced(masterNow, externalNow)
    {
      if performResetOnNextSync {
        ResetBaseline(masterNow, externalNow);
        return masterNow;
      }
      var masterElapsed := masterNow - masterStart;
      var deltaOffset, currentOffset := RecordOffset(masterNow, externalNow);
      if emergencyResetThresholdNanos < Abs(deltaOffset) {
        ScheduleReset();
      }
      if periodicResetNanos < masterElapsed {
        var newBaseOffset := baseOffset + TruncDiv(offsetSum, syncCount);
        assert newBaseOffset == old(baseOffset) + TruncDiv(Sum(deltas), |deltas|);
        Rebase(masterNow, externalNow, newBaseOffset, currentOffset);
      }
      return externalNow - currentOffset;
    }
  }
}
