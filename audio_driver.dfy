/** The timing engine of an audio stream: a double-buffered pair of time-info
    snapshots published by the audio thread and read by the MIDI thread to
    turn wall-clock MIDI timestamps into target frame numbers. The two
    threads are modelled sequentially: an update writes only the inactive
    slot and flips the active index as its last step. */
module AudioDriver {
  import opened CppArith
  import opened MasterClock
  import CS = ClockSync

  /** `AudioDriverSettings`; `srcQuality` and `chunkLen` are carried but not
      used by the stream's timing. */
  datatype AudioDriverSettings = AudioDriverSettings(
    sampleRate: uint32, srcQuality: int, chunkLen: int,
    audioLatency: int, midiLatency: int, advancedTiming: bool)

  /** A snapshot: the frame count played at wall-clock time `lastPlayedNanos`
      and the sample rate it is believed to advance at. */
  datatype TimeInfo = TimeInfo(lastPlayedNanos: int, lastPlayedFramesCount: int, actualSampleRate: real)

  /** `latency * sampleRate / MILLIS_PER_SECOND` with the product computed in
      32-bit unsigned arithmetic. Without wrap-around it is the whole number
      of frames in `latencyMillis` milliseconds. */
  function LatencyFrames(latencyMillis: int, sampleRate: uint32): (r: uint32)
    ensures 0 <= latencyMillis * sampleRate < TWO_32 ==>
              r * MILLIS_PER_SECOND <= latencyMillis * sampleRate < (r + 1) * MILLIS_PER_SECOND
  {
    ((latencyMillis * sampleRate) % TWO_32) / MILLIS_PER_SECOND
  }

  /** A rate within 0.5% of the nominal one. */
  predicate RateInBounds(rate: real, nominal: nat) {
    0.995 * nominal as real <= rate <= 1.005 * nominal as real
  }

  /** The sample-rate fix-up: the relative error against the nominal rate is
      clamped to [0.995, 1.005]. */
  function ClampRate(estimated: real, nominal: nat): (r: real)
    requires nominal > 0
    ensures RateInBounds(r, nominal)
    ensures RateInBounds(estimated, nominal) ==> r == estimated
    ensures estimated < 0.995 * nominal as real ==> r == 0.995 * nominal as real
    ensures estimated > 1.005 * nominal as real ==> r == 1.005 * nominal as real
  {
    var nominalSampleRate := nominal as real;
    var relativeError := estimated / nominalSampleRate;
    DivBelow(estimated, 0.995, nominalSampleRate);
    DivAbove(estimated, 1.005, nominalSampleRate);
    if relativeError < 0.995 then 0.995 * nominalSampleRate
    else if relativeError > 1.005 then 1.005 * nominalSampleRate
    else
      estimated
  }

  /** Seconds of wall-clock time since the slot's baseline. */
  function SecondsElapsed(slot: TimeInfo, measuredNanos: int): real {
    (measuredNanos - slot.lastPlayedNanos) as real / NANOS_PER_SECOND as real
  }

  /** The played-frame count the slot predicts at `measuredNanos`, rounded
      half up to a whole frame; it never falls below the slot's own count. */
  function Extrapolated(slot: TimeInfo, measuredNanos: int): (r: int)
    requires slot.actualSampleRate >= 0.0 && slot.lastPlayedNanos <= measuredNanos
    ensures r >= slot.lastPlayedFramesCount
  {
    var secondsElapsed := SecondsElapsed(slot, measuredNanos);
    MulLe(0.0, slot.actualSampleRate, secondsElapsed);
    slot.lastPlayedFramesCount + RoundHalfUp(slot.actualSampleRate * secondsElapsed)
  }

  /** The extrapolation is the nearest whole frame to the exact one: within
      half a frame of it. */
  lemma ExtrapolatedNearest(slot: TimeInfo, measuredNanos: int)
    requires slot.actualSampleRate >= 0.0 && slot.lastPlayedNanos <= measuredNanos
    ensures var exact := slot.lastPlayedFramesCount as real + slot.actualSampleRate * SecondsElapsed(slot, measuredNanos);
            exact - 0.5 < Extrapolated(slot, measuredNanos) as real <= exact + 0.5
  {
    MulLe(0.0, slot.actualSampleRate, SecondsElapsed(slot, measuredNanos));
  }

  /** The raw rate estimate: frames played since the slot's baseline divided
      by the seconds elapsed. */
  function RawRate(slot: TimeInfo, measuredNanos: int, estimatedPlayed: int): real
    requires slot.lastPlayedNanos != measuredNanos
  {
    (estimatedPlayed as real - slot.lastPlayedFramesCount as real) / SecondsElapsed(slot, measuredNanos)
  }

  /** Whether internal estimation treats the update as a discontinuity. */
  predicate IsHardReset(slot: TimeInfo, measuredNanos: int, estimatedPlayed: int, midiLatencyFrames: nat)
    requires slot.actualSampleRate >= 0.0 && slot.lastPlayedNanos <= measuredNanos
  {
    Abs(estimatedPlayed - Extrapolated(slot, measuredNanos)) > midiLatencyFrames
  }

  /** The snapshot internal estimation publishes after `active`.
      A hard reset happens exactly when the estimated play position is more
      than `midiLatencyFrames` away from the extrapolated one; it
      re-baselines at the estimate with the nominal rate. Otherwise the
      extrapolated count, which never goes back, is published with the raw
      rate clamped to within 0.5% of nominal. Either way the published rate
      is within those bounds and the baseline moves forward in time. */
  function InternalUpdate(active: TimeInfo, nominal: nat, midiLatencyFrames: nat,
                          measuredNanos: int, estimatedPlayed: int): (r: TimeInfo)
    requires nominal > 0
    requires active.actualSampleRate >= 0.0 && active.lastPlayedNanos < measuredNanos
    ensures r.lastPlayedNanos == measuredNanos && r.lastPlayedNanos > active.lastPlayedNanos
    ensures RateInBounds(r.actualSampleRate, nominal)
    ensures IsHardReset(active, measuredNanos, estimatedPlayed, midiLatencyFrames) ==>
              r.lastPlayedFramesCount == estimatedPlayed && r.actualSampleRate == nominal as real
    ensures !IsHardReset(active, measuredNanos, estimatedPlayed, midiLatencyFrames) ==>
              && r.lastPlayedFramesCount == Extrapolated(active, measuredNanos)
              && r.lastPlayedFramesCount >= active.lastPlayedFramesCount
              && r.actualSampleRate == ClampRate(RawRate(active, measuredNanos, estimatedPlayed), nominal)
  {
    var newPlayedFramesCount := Extrapolated(active, measuredNanos);
    if Abs(estimatedPlayed - newPlayedFramesCount) > midiLatencyFrames then
      TimeInfo(measuredNanos, estimatedPlayed, nominal as real)
    else
      TimeInfo(measuredNanos, newPlayedFramesCount,
               ClampRate(RawRate(active, measuredNanos, estimatedPlayed), nominal))
  }

  /** The exact number of frames the slot's rate covers between its baseline
      and `midiNanos`. */
  function FrameOffset(slot: TimeInfo, midiNanos: int): real {
    (midiNanos - slot.lastPlayedNanos) as real * slot.actualSampleRate / NANOS_PER_SECOND as real
  }

  /** The target frame of a MIDI event at `midiNanos` read from `slot`: the
      slot's frame count, plus the whole frames elapsed since its baseline at
      its rate, plus the MIDI latency. */
  function TargetFrame(slot: TimeInfo, midiNanos: int, midiLatencyFrames: nat): (r: int)
    ensures r as real <= (slot.lastPlayedFramesCount + midiLatencyFrames) as real + FrameOffset(slot, midiNanos) < r as real + 1.0
    ensures slot.lastPlayedNanos <= midiNanos && slot.actualSampleRate >= 0.0 ==>
              slot.lastPlayedFramesCount + midiLatencyFrames <= r
  {
    slot.lastPlayedFramesCount + FrameOffset(slot, midiNanos).Floor + midiLatencyFrames
  }

  /** Later MIDI events never get earlier target frames from the same slot. */
  lemma TargetFrameMonotonic(slot: TimeInfo, m1: int, m2: int, midiLatencyFrames: nat)
    requires m1 <= m2 && slot.actualSampleRate >= 0.0
    ensures TargetFrame(slot, m1, midiLatencyFrames) <= TargetFrame(slot, m2, midiLatencyFrames)
  {
    var d1 := (m1 - slot.lastPlayedNanos) as real;
    var d2 := (m2 - slot.lastPlayedNanos) as real;
    if slot.actualSampleRate > 0.0 {
      MulLe(d1, d2, slot.actualSampleRate);
    }
    assert FrameOffset(slot, m1) <= FrameOffset(slot, m2);
  }

  /** 48000 Hz, 480 frames of latency, an event 5 ms after a baseline at frame
      0: target frame 0 + 240 + 480. */
  lemma TargetFrameExample()
    ensures TargetFrame(TimeInfo(0, 0, 48000.0), 5_000_000, 480) == 720
  {
    assert (5_000_000 as real * 48000.0 / NANOS_PER_SECOND as real) == 240.0;
  }

  /** The nanoseconds of `frames` at the nominal rate, truncated. */
  function ResetThresholdNanos(frames: nat, sampleRate: nat): (r: int)
    requires sampleRate > 0
    ensures 0 <= r
    ensures r as real <= frames as real / sampleRate as real * NANOS_PER_SECOND as real < r as real + 1.0
  {
    TruncReal((frames as real / sampleRate as real) * NANOS_PER_SECOND as real)
  }

  class AudioStream {
    const settings: AudioDriverSettings
    const sampleRate: uint32
    var renderedFramesCount: nat
    var audioLatencyFrames: uint32
    var midiLatencyFrames: uint32
    const clockSync: CS.ClockSync?
    const timeInfo: array<TimeInfo>
    var timeInfoIx: nat

    /** Two slots, an index naming the active one, and the clock-sync tracker
        exactly when advanced timing is off. With internal estimation every
        published rate is within 0.5% of nominal and the inactive slot's
        baseline is never newer than the active one's. */
    ghost predicate Valid()
      reads this, timeInfo, clockSync
    {
      && timeInfo.Length == 2 && timeInfoIx < 2 && sampleRate > 0
      && (clockSync == null <==> settings.advancedTiming)
      && (clockSync != null ==> clockSync.Valid())
      && (clockSync == null ==>
            && RateInBounds(timeInfo[0].actualSampleRate, sampleRate)
            && RateInBounds(timeInfo[1].actualSampleRate, sampleRate)
            && timeInfo[1 - timeInfoIx].lastPlayedNanos <= timeInfo[timeInfoIx].lastPlayedNanos)
    }

    ghost function ActiveSlot(): TimeInfo
      reads this, timeInfo
      requires timeInfo.Length == 2 && timeInfoIx < 2
    {
      timeInfo[timeInfoIx]
    }

    /** Both slots start from the current clock reading `clockNow` at frame 0
        with the nominal rate; slot 0 is active. */
    constructor (useSettings: AudioDriverSettings, useSampleRate: uint32, clockNow: int)
      requires useSampleRate > 0
      ensures Valid() && fresh(timeInfo)
      ensures settings == useSettings && sampleRate == useSampleRate && renderedFramesCount == 0
      ensures audioLatencyFrames == LatencyFrames(useSettings.audioLatency, useSampleRate)
      ensures midiLatencyFrames == LatencyFrames(useSettings.midiLatency, useSampleRate)
      ensures clockSync != null <==> !useSettings.advancedTiming
      ensures clockSync != null ==> fresh(clockSync) && clockSync.performResetOnNextSync
      ensures timeInfoIx == 0
      ensures timeInfo[0] == timeInfo[1] == TimeInfo(clockNow, 0, useSampleRate as real)
    {
      settings := useSettings;
      sampleRate := useSampleRate;
      renderedFramesCount := 0;
      audioLatencyFrames := LatencyFrames(useSettings.audioLatency, useSampleRate);
      midiLatencyFrames := LatencyFrames(useSettings.midiLatency, useSampleRate);
      if useSettings.advancedTiming {
        clockSync := null;
      } else {
        clockSync := new CS.ClockSync();
      }
      timeInfoIx := 0;
      timeInfo := new TimeInfo[2](_ => TimeInfo(0, 0, 0.0));
      new;
      timeInfo[0] := timeInfo[0].(lastPlayedNanos := clockNow);
      timeInfo[0] := timeInfo[0].(lastPlayedFramesCount := renderedFramesCount);
      timeInfo[0] := timeInfo[0].(actualSampleRate := sampleRate as real);
      timeInfo[1] := timeInfo[0];
    }

    /** Auto-latency mode: a MIDI latency setting of 0, so the configured MIDI
        latency converts to no frames at all and only negative delays raise
        it. */
    predicate IsAutoLatencyMode(): (b: bool)
      ensures b ==> LatencyFrames(settings.midiLatency, sampleRate) == 0
    {
      settings.midiLatency == 0
    }

    /** The rendered-frame advance performed by the renderer. */
    method AdvanceRenderedFrames(frames: nat)
      modifies this`renderedFramesCount
      ensures renderedFramesCount == old(renderedFramesCount) + frames
    {
      renderedFramesCount := renderedFramesCount + frames;
    }

    /** `updateResetPeriod`: with a clock-sync tracker, its emergency threshold
        becomes the nanoseconds of max(midi, audio) latency frames and its
        rebase period ten times that; without one, nothing happens. */
    method UpdateResetPeriod()
      requires Valid()
      modifies clockSync
      ensures Valid()
      ensures clockSync != null ==>
                && clockSync.TrackingUnchanged()
                && var resetThresholdNanos := ResetThresholdNanos(Max(midiLatencyFrames, audioLatencyFrames), sampleRate);
                && clockSync.emergencyResetThresholdNanos == resetThresholdNanos
                && clockSync.periodicResetNanos == 10 * resetThresholdNanos
    {
      if clockSync == null {
        return;
      }
      var resetThresholdFrames := Max(midiLatencyFrames, audioLatencyFrames);
      var resetThresholdNanos := TruncReal((resetThresholdFrames as real / sampleRate as real) * NANOS_PER_SECOND as real);
      clockSync.SetParams(resetThresholdNanos, 10 * resetThresholdNanos);
    }

    /** `estimateMIDITimestamp`, with `clockNow` standing for the clock reading
        taken when `refNanos` is 0. The active slot is used unless the event
        is older than its baseline, in which case the other slot is. A target
        frame already rendered grows the latency by the deficit in
        auto-latency mode (wrapping at 32 bits like the `quint32` field) and
        leaves it alone otherwise. */
    method EstimateMidiTimestamp(refNanos: int, clockNow: int) returns (timestamp: int)
      requires Valid()
      modifies this`midiLatencyFrames, clockSync
      ensures Valid()
      ensures var midiNanos := if refNanos == 0 then clockNow else refNanos;
              var i := if midiNanos < timeInfo[timeInfoIx].lastPlayedNanos then 1 - timeInfoIx else timeInfoIx;
              timestamp == TargetFrame(timeInfo[i], midiNanos, old(midiLatencyFrames))
      ensures var delay := timestamp - renderedFramesCount;
              && (delay < 0 && IsAutoLatencyMode() ==>
                    && midiLatencyFrames == (old(midiLatencyFrames) - delay) % TWO_32
                    && (old(midiLatencyFrames) - delay < TWO_32 ==> midiLatencyFrames == old(midiLatencyFrames) + -delay)
                    && (clockSync != null ==>
                          && clockSync.TrackingUnchanged()
                          && var resetThresholdNanos := ResetThresholdNanos(Max(midiLatencyFrames, audioLatencyFrames), sampleRate);
                          && clockSync.emergencyResetThresholdNanos == resetThresholdNanos
                          && clockSync.periodicResetNanos == 10 * resetThresholdNanos))
              && (!(delay < 0 && IsAutoLatencyMode()) ==>
                    && midiLatencyFrames == old(midiLatencyFrames)
                    && (clockSync != null ==> unchanged(clockSync)))
    {
      var midiNanos := if refNanos == 0 then clockNow else refNanos;
      var i := timeInfoIx;
      if midiNanos < timeInfo[i].lastPlayedNanos {
        i := 1 - i;
      }
      var refFrameOffset := ((midiNanos - timeInfo[i].lastPlayedNanos) as real * timeInfo[i].actualSampleRate / NANOS_PER_SECOND as real).Floor;
      assert refFrameOffset == FrameOffset(timeInfo[i], midiNanos).Floor;
      timestamp := timeInfo[i].lastPlayedFramesCount + refFrameOffset + midiLatencyFrames;
      assert timestamp == TargetFrame(timeInfo[i], midiNanos, midiLatencyFrames);
      var delay := timestamp - renderedFramesCount;
      if delay < 0 {
        if IsAutoLatencyMode() {
          midiLatencyFrames := (midiLatencyFrames - delay) % TWO_32;
          assert old(midiLatencyFrames) - delay < TWO_32 ==> midiLatencyFrames == old(midiLatencyFrames) - delay;
          UpdateResetPeriod();
        }
      }
    }

    /** Updates arriving sooner than `midiLatencyFrames` worth of nominal-rate
        time after the active baseline are ignored. */
    predicate Debounced(measuredNanos: int): (b: bool)
      reads this, timeInfo
      requires timeInfo.Length == 2 && timeInfoIx < 2
      ensures !b && sampleRate > 0 ==> timeInfo[timeInfoIx].lastPlayedNanos <= measuredNanos
    {
      assert sampleRate > 0 && measuredNanos < timeInfo[timeInfoIx].lastPlayedNanos ==>
        (measuredNanos - timeInfo[timeInfoIx].lastPlayedNanos) as real * sampleRate as real < 0.0;
      (measuredNanos - timeInfo[timeInfoIx].lastPlayedNanos) as real * sampleRate as real
        < midiLatencyFrames as real * NANOS_PER_SECOND as real
    }

    /** The rendered position converted to nanoseconds at the nominal rate. */
    function RenderedNanos(): (r: int)
      reads this
      requires sampleRate > 0
      ensures 0 <= r
      ensures r as real <= renderedFramesCount as real / sampleRate as real * NANOS_PER_SECOND as real < r as real + 1.0
    {
      TruncReal(renderedFramesCount as real / sampleRate as real * NANOS_PER_SECOND as real)
    }

    /** After a clock sync with `measuredNanos`, the active slot holds the
        time the tracker answered, the rendered count and the nominal rate
        times the new drift, and the tracker is in the state `Sync` leaves. */
    twostate predicate SyncedPublished(measuredNanos: int)
      requires old(Valid()) && Valid() && clockSync != null
      requires old(clockSync.RebaseDefined(measuredNanos))
      reads this, timeInfo, clockSync
    {
      && timeInfo[timeInfoIx] == TimeInfo(old(clockSync.Corrected(measuredNanos, RenderedNanos())),
                                          renderedFramesCount, sampleRate as real * clockSync.GetDrift())
      && clockSync.Synced(measuredNanos, RenderedNanos())
    }

    /** The clock-sync branch of `updateTimeInfo`: the inactive slot receives
        the synced time, the rendered count and the nominal rate times the
        new drift, and then becomes the active one. */
    method PublishSynced(measuredNanos: int)
      requires Valid() && clockSync != null
      requires clockSync.RebaseDefined(measuredNanos)
      modifies this`timeInfoIx, timeInfo, clockSync
      ensures Valid()
      ensures timeInfoIx == 1 - old(timeInfoIx) && timeInfo[old(timeInfoIx)] == old(ActiveSlot())
      ensures SyncedPublished(measuredNanos)
    {
      var next := 1 - timeInfoIx;
      var renderedNanos := TruncReal(renderedFramesCount as real / sampleRate as real * NANOS_PER_SECOND as real);
      assert renderedNanos == RenderedNanos();
      var synced := clockSync.Sync(measuredNanos, renderedNanos);
      assert synced == old(clockSync.Corrected(measuredNanos, RenderedNanos()));
      timeInfo[next] := TimeInfo(synced, renderedFramesCount, sampleRate as real * clockSync.GetDrift());
      timeInfoIx := next;
    }

    /** The internal-estimation branch of `updateTimeInfo`: the inactive slot
        receives `InternalUpdate` of the active slot and then becomes the
        active one. */
    method PublishEstimated(measuredNanos: int, framesInAudioBuffer: uint32)
      requires Valid() && clockSync == null && !Debounced(measuredNanos)
      requires framesInAudioBuffer <= renderedFramesCount && measuredNanos != ActiveSlot().lastPlayedNanos
      modifies this`timeInfoIx, timeInfo
      ensures Valid()
      ensures timeInfoIx == 1 - old(timeInfoIx) && timeInfo[old(timeInfoIx)] == old(ActiveSlot())
      ensures timeInfo[timeInfoIx] == InternalUpdate(old(ActiveSlot()), sampleRate, midiLatencyFrames, measuredNanos,
                                                     renderedFramesCount - framesInAudioBuffer)
    {
      var next := 1 - timeInfoIx;
      var active := timeInfo[timeInfoIx];
      assert active.actualSampleRate >= 0.0 && active.lastPlayedNanos <= measuredNanos;
      // The play position: all rendered frames but those still in the audio buffer.
      var estimatedNewPlayedFramesCount := renderedFramesCount - framesInAudioBuffer;
      var secondsElapsed := SecondsElapsed(active, measuredNanos);
      ghost var expected := InternalUpdate(active, sampleRate, midiLatencyFrames, measuredNanos, estimatedNewPlayedFramesCount);
      // The frame count extrapolated from the active slot never goes back.
      var newPlayedFramesCount := Extrapolated(active, measuredNanos);
      if Abs(estimatedNewPlayedFramesCount - newPlayedFramesCount) > midiLatencyFrames {
        assert expected == TimeInfo(measuredNanos, estimatedNewPlayedFramesCount, sampleRate as real);
        timeInfo[next] := timeInfo[next].(lastPlayedNanos := measuredNanos);
        timeInfo[next] := timeInfo[next].(lastPlayedFramesCount := estimatedNewPlayedFramesCount);
        timeInfo[next] := timeInfo[next].(actualSampleRate := sampleRate as real);
        timeInfoIx := next;
        return;
      }
      var estimatedNewActualSampleRate := (estimatedNewPlayedFramesCount as real - active.lastPlayedFramesCount as real) / secondsElapsed;
      var nominalSampleRate := sampleRate as real;
      var relativeError := estimatedNewActualSampleRate / nominalSampleRate;
      if relativeError < 0.995 {
        estimatedNewActualSampleRate := 0.995 * nominalSampleRate;
      } else if relativeError > 1.005 {
        estimatedNewActualSampleRate := 1.005 * nominalSampleRate;
      }
      assert estimatedNewActualSampleRate == ClampRate(RawRate(active, measuredNanos, estimatedNewPlayedFramesCount), sampleRate);
      assert expected == TimeInfo(measuredNanos, newPlayedFramesCount, estimatedNewActualSampleRate);
      timeInfo[next] := timeInfo[next].(lastPlayedNanos := measuredNanos);
      timeInfo[next] := timeInfo[next].(lastPlayedFramesCount := newPlayedFramesCount);
      timeInfo[next] := timeInfo[next].(actualSampleRate := estimatedNewActualSampleRate);
      timeInfoIx := next;
    }

    /** `updateTimeInfo`. A debounced call changes nothing. Otherwise only the
        inactive slot is written and then becomes the active one: with a
        clock-sync tracker it receives the synced time, the rendered count and
        the nominal rate times the drift; with internal estimation it
        receives `InternalUpdate` of the active slot, the estimated play
        position being the rendered count minus the frames still buffered.
        Internal estimation requires that this position does not underflow
        and that the update does not divide by zero elapsed time; clock sync
        requires a defined drift division. */
    method UpdateTimeInfo(measuredNanos: int, framesInAudioBuffer: uint32)
      requires Valid()
      requires clockSync == null && !Debounced(measuredNanos) ==>
                 framesInAudioBuffer <= renderedFramesCount && measuredNanos != ActiveSlot().lastPlayedNanos
      requires clockSync != null && !Debounced(measuredNanos) ==> clockSync.RebaseDefined(measuredNanos)
      modifies this`timeInfoIx, timeInfo, clockSync
      ensures Valid()
      ensures old(Debounced(measuredNanos)) ==>
                timeInfoIx == old(timeInfoIx) && timeInfo[..] == old(timeInfo[..])
                && (clockSync != null ==> unchanged(clockSync))
      ensures !old(Debounced(measuredNanos)) ==>
                && timeInfoIx == 1 - old(timeInfoIx)
                && timeInfo[old(timeInfoIx)] == old(ActiveSlot())
      ensures !old(Debounced(measuredNanos)) && clockSync == null ==>
                timeInfo[timeInfoIx] == InternalUpdate(old(ActiveSlot()), sampleRate, midiLatencyFrames, measuredNanos,
                                                       renderedFramesCount - framesInAudioBuffer)
      ensures !old(Debounced(measuredNanos)) && clockSync != null ==> SyncedPublished(measuredNanos)
      ensures !old(Debounced(measuredNanos)) && clockSync != null && old(clockSync.performResetOnNextSync) ==>
                timeInfo[timeInfoIx].actualSampleRate == sampleRate as real
    {
      if Debounced(measuredNanos) {
        return;
      }
      if clockSync != null {
        PublishSynced(measuredNanos);
      } else {
        PublishEstimated(measuredNanos, framesInAudioBuffer);
      }
    }
  }
}
