/**
 * The live session of USV_detector.py (`UltrasonicDetectorApp`): Start and
 * Stop, which open and close the GPIO chip around a detector thread, the
 * per-block decision of the audio callback, and the TTL pulse written to a pin.
 *
 * The GPIO library is modelled as a log of the calls made to it and a map
 * from pin to level. The chip open, the thread start, the clock and the
 * audio blocks are parameters. The pulse threads the callback starts are
 * recorded as requests; `SendTtl` is what each of them runs.
 */
module LiveDetector {
  import opened Wrappers
  import opened Spectral
  import opened Devices

  /** `fs` and `blocksize` of `detect_loop`. */
  const SampleRate: nat := 192000
  const BlockSize: nat := 16384

  /** The values of the entry fields, read again on every block. */
  datatype Controls = Controls(threshold: real, gpio: int, ttlDuration: real, minFreqKhz: real)

  /** One call into the GPIO library. */
  datatype GpioCall =
    | ChipOpen(chip: int, handle: int)
    | ChipClose(handle: int)
    | ClaimOutput(handle: int, pin: int)
    | Write(handle: int, pin: int, level: int)

  /** A pulse thread started by the callback: `send_ttl(gpio, duration)`. */
  datatype PulseRequest = PulseRequest(pin: int, duration: real)

  /** One "[DEBUG] No ultrasonic frequencies found" line: when, the top bin, the cutoff. */
  datatype DebugLine = DebugLine(time: real, maxFreq: real, minNeeded: real)

  /** What the user is told when Start returns. */
  datatype StartReport = DeviceError(message: string) | GpioError(reason: string) | Started(message: string)

  /**
   * What the callback does with one block: stop the stream, fail in the FFT
   * (an empty block), or show the RMS and either stay quiet or start a pulse.
   */
  datatype BlockOutcome = StopStream | FftError | Quiet(rms: real) | Pulse(rms: real)

  /** `max(0.0, min_freq_khz * 1000.0)`. */
  function Cutoff(minFreqKhz: real): (c: real)
    ensures c >= 0.0 && c >= minFreqKhz * 1000.0
    ensures c == 0.0 || c == minFreqKhz * 1000.0
  {
    if minFreqKhz * 1000.0 > 0.0 then minFreqKhz * 1000.0 else 0.0
  }

  /** The band of a block: the magnitudes of the bins at or above the cutoff. */
  function BlockBand(num: Numerics, audio: seq<real>, cutoff: real): seq<real>
    requires |audio| > 0
  {
    BandMags(SpectrumOf(num, audio, SampleRate), cutoff)
  }

  /**
   * The decision for one block of a running session. It depends on this block
   * and the controls only: nothing about earlier blocks is consulted.
   */
  function Decide(num: Numerics, audio: seq<real>, controls: Controls): BlockOutcome
  {
    if |audio| == 0 then FftError
    else
      var rms := BandRms(num, BlockBand(num, audio, Cutoff(controls.minFreqKhz)));
      if rms > controls.threshold then Pulse(rms) else Quiet(rms)
  }

  /**
   * With a non-negative threshold a block pulses exactly when its band is
   * non-empty and the band RMS is strictly above the threshold; in particular
   * an empty band never pulses.
   */
  lemma PulseIff(num: Numerics, audio: seq<real>, controls: Controls)
    requires |audio| > 0 && controls.threshold >= 0.0
    ensures Decide(num, audio, controls).Pulse? <==>
      var band := BlockBand(num, audio, Cutoff(controls.minFreqKhz));
      |band| > 0 && Rms(num, band) > controls.threshold
    ensures |BlockBand(num, audio, Cutoff(controls.minFreqKhz))| == 0 ==> Decide(num, audio, controls) == Quiet(0.0)
  {
  }

  /**
   * For a full block of 16384 samples at 192 kHz the top bin is 96 kHz: the
   * band is empty exactly when the clamped cutoff lies above 96000 Hz.
   */
  lemma FullBlockBandEmptyIff(num: Numerics, audio: seq<real>, minFreqKhz: real)
    requires |audio| == BlockSize
    ensures |BlockBand(num, audio, Cutoff(minFreqKhz))| == 0 <==> Cutoff(minFreqKhz) > 96000.0
  {
    BandMagsEmptyIff(num, audio, SampleRate, Cutoff(minFreqKhz));
    assert TopBinFreq(BlockSize, SampleRate) == 96000.0;
  }

  class Detector {
    /** `self.running`. */
    var running: bool
    /** `self.handle`: the GPIO chip handle, `None` when closed. */
    var handle: Option<int>
    /** Every call made to the GPIO library, in order. */
    var gpioLog: seq<GpioCall>
    /** The level last written to each pin. */
    var levels: map<int, int>
    /** How many detector threads were started. */
    var detectorThreads: nat
    /** The pulse threads started by the callback, in order. */
    var pulses: seq<PulseRequest>
    /** `self._last_debug_print_time`; `None` while the attribute does not exist. */
    var lastDebugPrint: Option<real>
    /** The debug lines printed, in order. */
    var debugLog: seq<DebugLine>

    /**
     * The debug-print bookkeeping: the attribute holds the time of the last
     * line printed, every line comes more than a second after the one before,
     * and the first more than a second after time 0.
     */
    ghost predicate Valid()
      reads this`lastDebugPrint, this`debugLog
    {
      && (debugLog == [] ==> lastDebugPrint.None? || lastDebugPrint.value == 0.0)
      && (|debugLog| > 0 ==> lastDebugPrint == Some(debugLog[|debugLog| - 1].time))
      && (|debugLog| > 0 ==> debugLog[0].time > 1.0)
      && (forall j :: 0 < j < |debugLog| ==> debugLog[j].time > debugLog[j - 1].time + 1.0)
    }

    /** A window that has not been started. */
    constructor ()
      ensures !running && handle == None && gpioLog == [] && levels == map[]
      ensures detectorThreads == 0 && pulses == [] && lastDebugPrint == None && debugLog == []
      ensures Valid()
    {
      running := false;
      handle := None;
      gpioLog := [];
      levels := map[];
      detectorThreads := 0;
      pulses := [];
      lastDebugPrint := None;
      debugLog := [];
    }

    /**
     * `start`: check the audio device; on failure report it and change
     * nothing. Otherwise set `running`, open chip 0 and start the detector
     * thread; when either raises, clear `running` again. A handle opened before
     * the thread fails to start is kept.
     */
    method Start(query: Result<seq<Device>, string>, probe: (string, nat) -> Option<string>,
                 chip: Result<int, string>, thread: Option<string>)
      returns (report: StartReport)
      modifies this`running, this`handle, this`gpioLog, this`detectorThreads
      ensures var status := CheckDevices(query, probe);
        !status.Ready? ==>
          && report == DeviceError(Reply(status).1)
          && running == old(running) && handle == old(handle) && gpioLog == old(gpioLog)
          && detectorThreads == old(detectorThreads)
      ensures var status := CheckDevices(query, probe);
        status.Ready? && chip.Failure? ==>
          && report == GpioError(chip.error)
          && !running && handle == old(handle) && gpioLog == old(gpioLog)
          && detectorThreads == old(detectorThreads)
      ensures var status := CheckDevices(query, probe);
        status.Ready? && chip.Success? ==>
          && handle == Some(chip.value) && gpioLog == old(gpioLog) + [ChipOpen(0, chip.value)]
          && (thread.Some? ==> !running && report == GpioError(thread.value) && detectorThreads == old(detectorThreads))
          && (thread.None? ==> running && report == Started(Reply(status).1) && detectorThreads == old(detectorThreads) + 1)
    {
      var ok, message := CheckAudioDevices(query, probe);
      if !ok {
        return DeviceError(message);
      }
      running := true;
      if chip.Failure? {
        running := false;
        return GpioError(chip.error);
      }
      handle := Some(chip.value);
      gpioLog := gpioLog + [ChipOpen(0, chip.value)];
      if thread.Some? {
        running := false;
        return GpioError(thread.value);
      }
      detectorThreads := detectorThreads + 1;
      return Started(message);
    }

    /** `stop`: clear `running`; close the handle if one is held, and forget it. */
    method Stop()
      modifies this`running, this`handle, this`gpioLog
      ensures !running && handle == None
      ensures gpioLog == old(gpioLog) + (if old(handle).Some? then [ChipClose(old(handle).value)] else [])
    {
      running := false;
      if handle.Some? {
        gpioLog := gpioLog + [ChipClose(handle.value)];
        handle := None;
      }
    }

    /** Pressing Stop twice closes the chip at most once. */
    method StopTwice()
      modifies this`running, this`handle, this`gpioLog
      ensures !running && handle == None
      ensures gpioLog == old(gpioLog) + (if old(handle).Some? then [ChipClose(old(handle).value)] else [])
    {
      Stop();
      Stop();
    }

    /**
     * `send_ttl`: claim the pin as an output, write 1, sleep, write 0. Without
     * a handle the first call raises and nothing is written; a negative
     * duration makes the sleep raise and leaves the pin high.
     */
    method SendTtl(gpio: int, duration: real) returns (completed: bool)
      modifies this`gpioLog, this`levels
      ensures handle.None? ==> !completed && gpioLog == old(gpioLog) && levels == old(levels)
      ensures handle.Some? && duration < 0.0 ==>
        && !completed
        && gpioLog == old(gpioLog) + [ClaimOutput(handle.value, gpio), Write(handle.value, gpio, 1)]
        && levels == old(levels)[gpio := 1]
      ensures handle.Some? && duration >= 0.0 ==>
        && completed
        && gpioLog == old(gpioLog) + [ClaimOutput(handle.value, gpio), Write(handle.value, gpio, 1), Write(handle.value, gpio, 0)]
        && levels == old(levels)[gpio := 0]
    {
      if handle.None? {
        return false;
      }
      var h := handle.value;
      gpioLog := gpioLog + [ClaimOutput(h, gpio)];
      gpioLog := gpioLog + [Write(h, gpio, 1)];
      levels := levels[gpio := 1];
      if duration < 0.0 {
        return false;
      }
      gpioLog := gpioLog + [Write(h, gpio, 0)];
      levels := levels[gpio := 0];
      return true;
    }

    /**
     * The empty-band branch of `callback`: create the attribute at 0 if it is
     * missing, and print the debug line only when more than a second has
     * passed since the last one, which is then this one.
     */
    method NoteEmptyBand(now: real, maxFreq: real, cutoff: real)
      requires Valid()
      modifies this`lastDebugPrint, this`debugLog
      ensures Valid()
      ensures var last := if old(lastDebugPrint).Some? then old(lastDebugPrint).value else 0.0;
        if now - last > 1.0 then
          debugLog == old(debugLog) + [DebugLine(now, maxFreq, cutoff)] && lastDebugPrint == Some(now)
        else debugLog == old(debugLog) && lastDebugPrint == Some(last)
    {
      if lastDebugPrint.None? {
        lastDebugPrint := Some(0.0);
      }
      if now - lastDebugPrint.value > 1.0 {
        debugLog := debugLog + [DebugLine(now, maxFreq, cutoff)];
        lastDebugPrint := Some(now);
      }
    }

    /**
     * The spectral part of `callback`: the band at the cutoff, its RMS (0.0
     * when the band is empty) and the top bin frequency `freqs[-1]`.
     */
    static method Measure(num: Numerics, audio: seq<real>, cutoff: real) returns (rms: real, bandEmpty: bool, maxFreq: real)
      requires |audio| > 0
      ensures bandEmpty <==> |BlockBand(num, audio, cutoff)| == 0
      ensures rms == BandRms(num, BlockBand(num, audio, cutoff))
      ensures maxFreq == TopBinFreq(|audio|, SampleRate)
    {
      var sp := SpectrumOf(num, audio, SampleRate);
      var band := BandMags(sp, cutoff);
      bandEmpty := |band| == 0;
      if |band| > 0 {
        rms := Rms(num, band);
      } else {
        rms := 0.0;
      }
      maxFreq := sp.freqs[|sp.freqs| - 1];
    }

    /**
     * The decision part of `callback` for one block (channel 0 of `indata`)
     * arriving at time `now`: request the stream to stop when not running;
     * otherwise take the band at the clamped cutoff, print the rate-limited
     * debug line when the band is empty, and start a pulse when the RMS is
     * above the threshold.
     */
    method Callback(num: Numerics, audio: seq<real>, controls: Controls, now: real) returns (outcome: BlockOutcome)
      requires Valid()
      modifies this`pulses, this`lastDebugPrint, this`debugLog
      ensures Valid()
      ensures !old(running) ==> outcome == StopStream
      ensures old(running) ==> outcome == Decide(num, audio, controls)
      ensures pulses == old(pulses) + (if outcome.Pulse? then [PulseRequest(controls.gpio, controls.ttlDuration)] else [])
      ensures var cutoff := Cutoff(controls.minFreqKhz);
        var last := if old(lastDebugPrint).Some? then old(lastDebugPrint).value else 0.0;
        if old(running) && |audio| > 0 && |BlockBand(num, audio, cutoff)| == 0 then
          if now - last > 1.0 then
            debugLog == old(debugLog) + [DebugLine(now, TopBinFreq(|audio|, SampleRate), cutoff)]
            && lastDebugPrint == Some(now)
          else debugLog == old(debugLog) && lastDebugPrint == Some(last)
        else debugLog == old(debugLog) && lastDebugPrint == old(lastDebugPrint)
    {
      if !running {
        return StopStream;
      }
      var cutoff := Cutoff(controls.minFreqKhz);
      if |audio| == 0 {
        return FftError;
      }
      var rms, bandEmpty, maxFreq := Measure(num, audio, cutoff);
      if bandEmpty {
        NoteEmptyBand(now, maxFreq, cutoff);
      }
      if rms > controls.threshold {
        pulses := pulses + [PulseRequest(controls.gpio, controls.ttlDuration)];
        return Pulse(rms);
      }
      return Quiet(rms);
    }
  }

  /**
   * Spacing adds up over the whole log: two debug lines `j - i` places apart
   * are more than `j - i` seconds apart.
   */
  lemma {:induction false} DebugLinesSpaced(log: seq<DebugLine>, i: nat, j: nat)
    requires forall k :: 0 < k < |log| ==> log[k].time > log[k - 1].time + 1.0
    requires i < j < |log|
    ensures log[j].time > log[i].time + (j - i) as real
    decreases j - i
  {
    if j > i + 1 {
      DebugLinesSpaced(log, i, j - 1);
    }
  }
}
