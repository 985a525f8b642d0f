/**
 * The offline analyser window (`UltrasonicDetectorApp` in USV.py) as an object: the
 * loaded recording, the results of the last analysis that completed and the
 * percentages posted to the progress bar. Its two commands are the analysis
 * loop and "Play Detection"; each is proved against the reference functions
 * of module FileAnalysis.
 */
module FileAnalyzerApp {
  import opened Wrappers
  import opened PyOps
  import opened Spectral
  import opened FileAnalysis

  class FileAnalyzer {
    /** `self.audio_data`, one channel of samples. */
    var audioData: seq<real>
    /** `self.sample_rate`, in Hz. */
    var sampleRate: nat
    /** `self.detection_results`: `None` until an analysis completes. */
    var detectionResults: Option<seq<Detection>>
    /** Every value handed to `progress_var.set`, in order. */
    var progressLog: seq<real>

    /** A window with a file loaded and nothing analysed yet. */
    constructor (audio: seq<real>, fs: nat)
      ensures audioData == audio && sampleRate == fs
      ensures detectionResults == None && progressLog == []
    {
      audioData := audio;
      sampleRate := fs;
      detectionResults := None;
      progressLog := [];
    }

    /**
     * `analyze_audio_data`: derive the window and hop sizes, then run the
     * loop. An exception, here or in the loop, leaves the previous results in place.
     */
    method AnalyzeAudioData(num: Numerics, settings: Settings) returns (outcome: Result<seq<Detection>, AnalysisError>)
      modifies this`detectionResults, this`progressLog
      ensures var job := Job(num, audioData, sampleRate, settings);
        && outcome == Analyze(job)
        && progressLog == old(progressLog) + Progress(job)
      ensures detectionResults == if outcome.Success? then Some(outcome.value) else old(detectionResults)
    {
      var fs := sampleRate;
      var cutoff := settings.minFreqKhz * 1000.0;
      var threshold := settings.threshold;
      var windowSize := WindowSize(fs, settings.windowMs);
      var hopSize := HopSize(windowSize, settings.hopOverlapPct);
      var p := Params(num, audioData, fs, windowSize, hopSize, cutoff, threshold);
      ghost var job := Job(num, audioData, fs, settings);
      assert p == ParamsOf(job);
      if fs == 0 {
        ZeroRateZeroHop(job);
      }
      if hopSize == 0 {
        return Failure(ZeroHop);
      }
      outcome := ScanWindows(p);
    }

    /**
     * The loop of `analyze_audio_data` once the sizes are known: post the
     * progress before each window, record every window whose band RMS exceeds
     * the threshold, and publish the records only when the whole loop completes.
     */
    method ScanWindows(p: Params) returns (outcome: Result<seq<Detection>, AnalysisError>)
      requires p.audio == audioData && p.fs == sampleRate
      requires p.fs > 0 && p.hop != 0
      modifies this`detectionResults, this`progressLog
      ensures outcome == Run(p) && progressLog == old(progressLog) + Posted(p)
      ensures detectionResults == if outcome.Success? then Some(outcome.value) else old(detectionResults)
    {
      var failure, detections;
      ghost var k, i, posted, outs, post;
      failure, detections, k, i, posted, outs, post := WindowLoop(p);
      if failure.Some? {
        LoopRaises(p, k, i, detections, posted, outs, failure.value, post);
        return Failure(failure.value);
      }
      LoopEnds(p, k, i, detections, posted, outs);
      detectionResults := Some(detections);
      return Success(detections);
    }

    /**
     * The `for` loop itself: it stops when the starts run out or an iteration
     * raises, and reports the state it stopped in. The loop state is compared
     * with `true` so that the verifier takes it as one fact instead of
     * checking its conjuncts one by one at every use.
     */
    method WindowLoop(p: Params)
      returns (failure: Option<AnalysisError>, detections: seq<Detection>, ghost k: nat, ghost i: int,
               ghost posted: seq<real>, ghost outs: seq<Result<seq<Detection>, AnalysisError>>, ghost post: seq<real>)
      requires p.fs > 0 && p.hop != 0
      modifies this`progressLog
      ensures progressLog == old(progressLog) + posted + post
      ensures LoopAt(p, k, i, detections, posted, outs) == true
      ensures failure.None? ==> !InRange(i, |p.audio| - p.w, p.hop) && post == []
      ensures failure.Some? ==> InRange(i, |p.audio| - p.w, p.hop) && Raised(p, i, failure.value, post)
    {
      var totalWindows := FloorDiv(|p.audio|, p.hop);
      detections, failure, posted, outs, post := [], None, [], [], [];
      var start := 0;
      k := 0;
      LoopStarts(p);
      while InRange(start, |p.audio| - p.w, p.hop)
        invariant progressLog == old(progressLog) + posted && post == []
        invariant LoopAt(p, k, start, detections, posted, outs) == true && failure.None?
        decreases |Starts(p)| - k
      {
        var next: seq<Detection>;
        ghost var outs';
        failure, next, post, outs' := Iteration(p, totalWindows, start, detections, k, posted, outs);
        if failure.Some? {
          break;
        }
        detections, posted, outs, post := next, posted + post, outs', [];
        start := start + p.hop;
        k := k + 1;
      }
      i := start;
    }

    /**
     * One pass of the loop body at start `i`: post the percentage (dividing by
     * `total_windows`), cut the window (an empty one makes `rfft` raise) and
     * append its record when it triggers.
     */
    method Iteration(p: Params, totalWindows: int, i: int, detections: seq<Detection>, ghost k: nat,
                     ghost posted: seq<real>, ghost outs: seq<Result<seq<Detection>, AnalysisError>>)
      returns (failure: Option<AnalysisError>, detections': seq<Detection>,
               ghost post: seq<real>, ghost outs': seq<Result<seq<Detection>, AnalysisError>>)
      requires LoopAt(p, k, i, detections, posted, outs) && InRange(i, |p.audio| - p.w, p.hop)
      requires totalWindows == TotalWindows(p)
      modifies this`progressLog
      ensures progressLog == old(progressLog) + post
      ensures failure.None? ==> LoopAt(p, k + 1, i + p.hop, detections', posted + post, outs')
      ensures failure.Some? ==> Raised(p, i, failure.value, post)
    {
      if totalWindows == 0 {
        return Some(ZeroTotalWindows), detections, [], outs;
      }
      var progress := ProgressAt(i, p.hop, totalWindows);
      progressLog := progressLog + [progress];
      post := [progress];
      var window := Slice(p.audio, i, i + p.w);
      if |window| == 0 {
        return Some(EmptyWindow(i)), detections, post, outs;
      }
      var found := AnalyzeWindow(p, i, window);
      var d := if found.Some? then [found.value] else [];
      OutcomesSnoc(p, Starts(p)[..k], outs, i);
      outs' := outs + [Success(d)];
      LoopNext(p, k, i, detections, posted, outs, d);
      return None, detections + d, post, outs';
    }

    /**
     * One iteration once its window is cut: the spectrum, the band, and the
     * record when the band is non-empty and its RMS strictly above the threshold.
     */
    static method AnalyzeWindow(p: Params, i: int, window: seq<real>) returns (found: Option<Detection>)
      requires p.fs > 0 && |window| > 0 && WindowAt(p, i) == window
      ensures found == if Triggers(p, i) then Some(RecordAt(p, i)) else None
    {
      var sp := SpectrumOf(p.num, window, p.fs);
      var band := BandMags(sp, p.cutoff);
      found := None;
      if |band| > 0 {
        var rms := Rms(p.num, band);
        if rms > p.threshold {
          var startTime := Seconds(i, p.fs);
          var endTime := Seconds(i + p.w, p.fs);
          found := Some(Detection(startTime, endTime, endTime - startTime, rms,
                                  PeakFreq(sp), BandFreqs(sp, p.cutoff)));
        }
      }
    }

    /**
     * `play_detection`: warn when there is nothing to play, otherwise cut each
     * record's span `audio[int(start*fs):int(end*fs)]` out of the buffer and
     * play the concatenation, unless it is empty.
     */
    method PlayDetection() returns (pb: Playback)
      ensures pb == PlaybackOf(audioData, sampleRate, detectionResults)
    {
      if detectionResults.None? || |detectionResults.value| == 0 {
        return NothingToPlay;
      }
      var ds := detectionResults.value;
      var combined: seq<real> := [];
      var k := 0;
      while k < |ds|
        invariant 0 <= k <= |ds|
        invariant combined == Combined(audioData, sampleRate, ds[..k])
      {
        var startIdx := SampleIndex(ds[k].startTime, sampleRate);
        var endIdx := SampleIndex(ds[k].endTime, sampleRate);
        var segment := Slice(audioData, startIdx, endIdx);
        CombinedSnoc(audioData, sampleRate, ds, k);
        combined := combined + segment;
        k := k + 1;
      }
      assert ds[..k] == ds;
      if |combined| == 0 {
        return NothingPlayed;
      }
      return Played(combined, sampleRate);
    }
  }
}
