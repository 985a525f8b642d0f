/**
 * The file-mode detector of the analyser application: the buffer is cut into
 * windows `audio[i:i+window_size]` for `i` in `range(0, len(audio) - window_size, hop_size)`,
 * and each window whose band is non-empty and whose band RMS is strictly above the
 * threshold yields one detection record. This module holds the specification
 * (functions) and its properties (lemmas); the class in FileAnalyzerApp runs the loop.
 */
module FileAnalysis {
  import opened Wrappers
  import opened PyOps
  import opened Spectral

  /** The analysis parameters, as read from the application's entries. */
  datatype Settings = Settings(threshold: real, minFreqKhz: real, windowMs: real, hopOverlapPct: real)

  /** One analysis request: the numerics, the loaded samples, the sample rate and the parameters. */
  datatype Job = Job(num: Numerics, audio: seq<real>, fs: nat, settings: Settings)

  /**
   * What the analysis derives before its loop: window size and hop in samples,
   * the band cutoff in Hz and the threshold.
   */
  datatype Params = Params(num: Numerics, audio: seq<real>, fs: nat, w: int, hop: int, cutoff: real, threshold: real)

  /** `window_size = int(fs * window_size_ms / 1000.0)`: truncated, not rounded. */
  function WindowSize(fs: nat, windowMs: real): int
  {
    Trunc(fs as real * windowMs / 1000.0)
  }

  /** `hop_size = int(window_size * (1 - hop_overlap_percent / 100.0))`: truncated, not rounded. */
  function HopSize(windowSize: int, hopOverlapPct: real): int
  {
    Trunc(windowSize as real * (1.0 - hopOverlapPct / 100.0))
  }

  /** The cutoff `min_freq_khz * 1000.0` is not clamped in file mode. */
  function ParamsOf(job: Job): Params
  {
    var w := WindowSize(job.fs, job.settings.windowMs);
    Params(job.num, job.audio, job.fs, w, HopSize(w, job.settings.hopOverlapPct),
           job.settings.minFreqKhz * 1000.0, job.settings.threshold)
  }

  /** `len(audio) // hop_size`, the divisor of the progress percentage. */
  function TotalWindows(p: Params): int
    requires p.hop != 0
  {
    FloorDiv(|p.audio|, p.hop)
  }

  /** The window starts the loop visits: `range(0, len(audio) - window_size, hop_size)`. */
  function Starts(p: Params): seq<int>
    requires p.hop != 0
  {
    Range(|p.audio| - p.w, p.hop)
  }

  /** `audio[i:i + window_size]`. */
  function WindowAt(p: Params, i: int): seq<real>
  {
    Slice(p.audio, i, i + p.w)
  }

  /** The magnitudes of the band of the window starting at `i`. */
  function BandAt(p: Params, i: int): seq<real>
    requires |WindowAt(p, i)| > 0
  {
    BandMags(SpectrumOf(p.num, WindowAt(p, i), p.fs), p.cutoff)
  }

  /** The window starting at `i` has a non-empty band whose RMS is strictly above the threshold. */
  predicate Triggers(p: Params, i: int)
    requires |WindowAt(p, i)| > 0
  {
    |BandAt(p, i)| > 0 && BandRms(p.num, BandAt(p, i)) > p.threshold
  }

  /** One detection record as the analyser builds it. */
  datatype Detection = Detection(
    startTime: real,
    endTime: real,
    duration: real,
    rms: real,
    maxFreq: real,
    ultrasonicFreqs: seq<real>)

  /** Sample index `i` as a time in seconds, `i / fs`. */
  function Seconds(i: int, fs: nat): real
    requires fs > 0
  {
    i as real / fs as real
  }

  /** The record of the triggering window starting at `i`. */
  function RecordAt(p: Params, i: int): Detection
    requires p.fs > 0 && |WindowAt(p, i)| > 0
  {
    var sp := SpectrumOf(p.num, WindowAt(p, i), p.fs);
    var startTime := Seconds(i, p.fs);
    var endTime := Seconds(i + p.w, p.fs);
    Detection(startTime, endTime, endTime - startTime, BandRms(p.num, BandAt(p, i)),
              PeakFreq(sp), BandFreqs(sp, p.cutoff))
  }

  /** The exceptions the analysis body can raise; each ends the run with an error status. */
  datatype AnalysisError =
    | ZeroHop                  // `len(audio) // hop_size` with `hop_size == 0`
    | ZeroTotalWindows         // the progress percentage divides by `total_windows == 0`
    | EmptyWindow(start: int)  // `rfft` of a zero-length window

  /** What one loop iteration adds: an error, no record or one record. */
  function WindowOutcome(p: Params, i: int): Result<seq<Detection>, AnalysisError>
    requires p.fs > 0
  {
    if |WindowAt(p, i)| == 0 then Failure(EmptyWindow(i))
    else if Triggers(p, i) then Success([RecordAt(p, i)])
    else Success([])
  }

  /** The loop over the given window starts, in order, stopping at the first error. */
  function Scan(p: Params, starts: seq<int>): Result<seq<Detection>, AnalysisError>
    requires p.fs > 0
  {
    if |starts| == 0 then Success([])
    else
      match Scan(p, starts[..|starts| - 1])
      case Failure(e) => Failure(e)
      case Success(ds) =>
        match WindowOutcome(p, starts[|starts| - 1])
        case Failure(e) => Failure(e)
        case Success(d) => Success(ds + d)
  }

  /**
   * The analysis once its sizes are known: `total_windows` divides by the hop,
   * the first iteration divides by `total_windows`, and every window must be
   * non-empty. A zero sample rate always comes with a zero hop.
   */
  function Run(p: Params): Result<seq<Detection>, AnalysisError>
    requires p.fs > 0 || p.hop == 0
  {
    if p.hop == 0 then Failure(ZeroHop)
    else if |Starts(p)| > 0 && TotalWindows(p) == 0 then Failure(ZeroTotalWindows)
    else Scan(p, Starts(p))
  }

  /** A zero sample rate gives a zero window and a zero hop. */
  lemma ZeroRateZeroHop(job: Job)
    requires job.fs == 0
    ensures ParamsOf(job).w == 0 && ParamsOf(job).hop == 0
  {
    assert job.fs as real * job.settings.windowMs == 0.0;
  }

  /** The whole body of `analyze_audio_data`. */
  function Analyze(job: Job): Result<seq<Detection>, AnalysisError>
  {
    assert job.fs > 0 || ParamsOf(job).hop == 0 by {
      if job.fs == 0 { ZeroRateZeroHop(job); }
    }
    Run(ParamsOf(job))
  }

  /** The percentages one call of `analyze_audio_data` posts to the progress bar. */
  function Progress(job: Job): seq<real>
  {
    assert job.fs > 0 || ParamsOf(job).hop == 0 by {
      if job.fs == 0 { ZeroRateZeroHop(job); }
    }
    Posted(ParamsOf(job))
  }

  /** The percentage posted before the window starting at `i`: `(i / hop_size) / total_windows * 100`. */
  function ProgressAt(i: int, hop: int, total: int): real
    requires hop != 0 && total != 0
  {
    (i as real / hop as real) / total as real * 100.0
  }

  /**
   * Every percentage the loop posts when it runs to completion, for a buffer of
   * `n` samples, window size `w` and hop `hop`.
   */
  function ProgressSeries(n: int, w: int, hop: int): seq<real>
  {
    if hop == 0 || FloorDiv(n, hop) == 0 then [] else Percentages(Range(n - w, hop), hop, FloorDiv(n, hop))
  }

  /** The percentage posted before each of the windows at `starts`, in order. */
  function Percentages(starts: seq<int>, hop: int, total: int): seq<real>
    requires hop != 0 && total != 0
  {
    seq(|starts|, k requires 0 <= k < |starts| => ProgressAt(starts[k], hop, total))
  }

  /**
   * The percentages the loop over `starts` posts: one before each window it
   * reaches, including a window that then raises, and none after an error.
   */
  function PostedOver(p: Params, starts: seq<int>, total: int): seq<real>
    requires p.fs > 0 && p.hop != 0 && total != 0
  {
    if |starts| == 0 then []
    else
      var init := starts[..|starts| - 1];
      if Scan(p, init).Failure? then PostedOver(p, init, total)
      else PostedOver(p, init, total) + [ProgressAt(starts[|starts| - 1], p.hop, total)]
  }

  /**
   * The percentages one call posts: none when `len(audio) // hop_size` or the
   * first percentage raises, otherwise those of the loop.
   */
  function Posted(p: Params): seq<real>
    requires p.fs > 0 || p.hop == 0
  {
    if p.hop == 0 || TotalWindows(p) == 0 then [] else PostedOver(p, Starts(p), TotalWindows(p))
  }

  // ------------------------------------------------------------------
  // Which windows are visited
  // ------------------------------------------------------------------

  /**
   * With a positive hop the starts are `0, hop, 2*hop, ...`, each window
   * `[i, i + window_size)` lies inside the buffer and ends strictly before its
   * last sample (so a window ending exactly at the end of the buffer is never
   * analysed), and the first start not visited is at or past `len(audio) - window_size`.
   */
  lemma WindowsInsideBuffer(p: Params)
    requires p.hop > 0 && p.w >= 0
    ensures var starts := Starts(p);
      && (forall k :: 0 <= k < |starts| ==>
            starts[k] == k * p.hop && 0 <= starts[k] && starts[k] + p.w < |p.audio|
            && WindowAt(p, starts[k]) == p.audio[starts[k]..starts[k] + p.w])
      && |p.audio| - p.w <= |starts| * p.hop
  {
    var starts := Starts(p);
    forall k | 0 <= k < |starts|
      ensures starts[k] == k * p.hop && 0 <= starts[k] && starts[k] + p.w < |p.audio|
      ensures WindowAt(p, starts[k]) == p.audio[starts[k]..starts[k] + p.w]
    {
      assert starts[k] == 0 + k * p.hop;
      assert k * p.hop >= 0;
    }
  }

  /**
   * With a positive hop the loop analyses `ceil((len(audio) - window_size) / hop_size)`
   * windows when the buffer is longer than one window, and none otherwise.
   */
  lemma WindowCount(p: Params)
    requires p.hop > 0
    ensures |Starts(p)| == if |p.audio| > p.w then CeilDiv(|p.audio| - p.w, p.hop) else 0
  {
    RangeLength(0, |p.audio| - p.w, p.hop);
  }

  // ------------------------------------------------------------------
  // The error path
  // ------------------------------------------------------------------

  /**
   * A window of less than one sample (`-1000 < fs * window_ms < 1000`, which
   * includes a zero sample rate) truncates to a zero window size, hence a zero
   * hop, and the run fails at `len(audio) // hop_size`, before the loop.
   */
  lemma ShortWindowFails(job: Job)
    requires -1000.0 < job.fs as real * job.settings.windowMs < 1000.0
    ensures Analyze(job) == Failure(ZeroHop)
  {
    var x := job.fs as real * job.settings.windowMs / 1000.0;
    assert -1.0 < x < 1.0;
    TruncTowardZero(x);
    assert ParamsOf(job).w == 0;
    assert 0 as real * (1.0 - job.settings.hopOverlapPct / 100.0) == 0.0;
  }

  /**
   * A hop longer than the whole buffer (a negative overlap) with a buffer longer
   * than one window: `total_windows` is 0 and the first progress percentage
   * divides by it.
   */
  lemma OversizedHopFails(p: Params)
    requires p.fs > 0 && p.w < |p.audio| < p.hop
    ensures Run(p) == Failure(ZeroTotalWindows)
  {
    var q := TotalWindows(p);
    FloorDivBounds(|p.audio|, p.hop);
    if q >= 1 {
      MulAtLeast(q, p.hop);
    } else if q <= -1 {
      MulAtLeast(-q, p.hop);
    }
    assert q == 0;
    assert Starts(p)[0] == 0;
  }

  // ------------------------------------------------------------------
  // One record per triggering window
  // ------------------------------------------------------------------

  /** A positive sample rate and `0 < hop_size <= window_size`, as the application's defaults give. */
  predicate WellFormed(p: Params)
  {
    p.fs > 0 && 0 < p.hop <= p.w
  }

  /**
   * Settings give a well-formed run when the window holds at least one sample,
   * the overlap is not negative and the window left after the overlap still
   * holds at least one sample.
   */
  lemma SettingsWellFormed(job: Job)
    requires job.fs as real * job.settings.windowMs >= 1000.0
    requires 0.0 <= job.settings.hopOverlapPct
    requires ParamsOf(job).w as real * (1.0 - job.settings.hopOverlapPct / 100.0) >= 1.0
    ensures WellFormed(ParamsOf(job))
  {
    var p := ParamsOf(job);
    TruncTowardZero(job.fs as real * job.settings.windowMs / 1000.0);
    assert p.w >= 1;
    var f := 1.0 - job.settings.hopOverlapPct / 100.0;
    TruncTowardZero(p.w as real * f);
    assert f <= 1.0;
    assert p.w as real * f <= p.w as real by {
      assert p.w as real * (1.0 - f) >= 0.0;
    }
  }

  /** In a well-formed run every visited start begins a window inside the buffer. */
  lemma StartsInsideBuffer(p: Params)
    requires WellFormed(p)
    ensures forall i :: i in Starts(p) ==> 0 <= i && i + p.w < |p.audio|
  {
    WindowsInsideBuffer(p);
  }

  predicate Increasing(s: seq<int>)
  {
    forall j, k :: 0 <= j < k < |s| ==> s[j] < s[k]
  }

  /** Every start in `starts` has a non-empty window. */
  predicate NonEmptyWindows(p: Params, starts: seq<int>)
  {
    forall k :: 0 <= k < |starts| ==> |WindowAt(p, starts[k])| > 0
  }

  /** Every start in `hits` has a non-empty window. */
  predicate NonEmptyAt(p: Params, hits: seq<int>)
  {
    forall h :: h in hits ==> |WindowAt(p, h)| > 0
  }

  /** Every start in `hits` has a non-empty, triggering window. */
  predicate AllTrigger(p: Params, hits: seq<int>)
  {
    NonEmptyAt(p, hits) && forall h :: h in hits ==> Triggers(p, h)
  }

  /** The starts of the triggering windows, in the order of `starts`. */
  function Hits(p: Params, starts: seq<int>): (hits: seq<int>)
    requires NonEmptyWindows(p, starts)
    ensures forall h :: h in hits ==> h in starts
    ensures NonEmptyAt(p, hits) && AllTrigger(p, hits)
  {
    if |starts| == 0 then []
    else
      var init, i := starts[..|starts| - 1], starts[|starts| - 1];
      assert forall k :: 0 <= k < |init| ==> init[k] == starts[k];
      var prev := Hits(p, init);
      if Triggers(p, i) then prev + [i] else prev
  }

  /** Every triggering window of `starts` is among the hits. */
  lemma {:induction false} HitsComplete(p: Params, starts: seq<int>)
    requires NonEmptyWindows(p, starts)
    ensures forall k :: 0 <= k < |starts| && Triggers(p, starts[k]) ==> starts[k] in Hits(p, starts)
  {
    if |starts| > 0 {
      var init := starts[..|starts| - 1];
      assert forall k :: 0 <= k < |init| ==> init[k] == starts[k];
      HitsComplete(p, init);
    }
  }

  /** The hits of increasing starts are increasing. */
  lemma {:induction false} HitsIncreasing(p: Params, starts: seq<int>)
    requires NonEmptyWindows(p, starts) && Increasing(starts)
    ensures Increasing(Hits(p, starts))
  {
    if |starts| > 0 {
      var init, i := starts[..|starts| - 1], starts[|starts| - 1];
      assert forall k :: 0 <= k < |init| ==> init[k] == starts[k];
      HitsIncreasing(p, init);
      var prev := Hits(p, init);
      forall h | h in prev
        ensures h < i
      {
        var k :| 0 <= k < |init| && init[k] == h;
      }
      if Triggers(p, i) {
        var hits := prev + [i];
        assert Hits(p, starts) == hits;
        forall j, k | 0 <= j < k < |hits|
          ensures hits[j] < hits[k]
        {
          if k == |prev| { assert hits[j] in prev; }
        }
      }
    }
  }

  /** The records of the given triggering windows, in order. */
  function RecordsOf(p: Params, hits: seq<int>): (ds: seq<Detection>)
    requires p.fs > 0
    requires NonEmptyAt(p, hits)
    ensures |ds| == |hits|
  {
    if |hits| == 0 then []
    else
      var init := hits[..|hits| - 1];
      assert forall h :: h in init ==> h in hits;
      RecordsOf(p, init) + [RecordAt(p, hits[|hits| - 1])]
  }

  /** Record j is the record of window `hits[j]`. */
  lemma {:induction false} RecordOfHit(p: Params, hits: seq<int>, j: nat)
    requires p.fs > 0 && NonEmptyAt(p, hits) && j < |hits|
    ensures hits[j] in hits
    ensures RecordsOf(p, hits)[j] == RecordAt(p, hits[j])
  {
    var init := hits[..|hits| - 1];
    assert forall h :: h in init ==> h in hits;
    if j < |init| {
      RecordOfHit(p, init, j);
      assert init[j] == hits[j];
    }
  }

  lemma RecordsOfAt(p: Params, hits: seq<int>)
    requires p.fs > 0 && NonEmptyAt(p, hits)
    ensures forall j :: 0 <= j < |hits| ==> RecordsOf(p, hits)[j] == RecordAt(p, hits[j])
  {
    forall j | 0 <= j < |hits|
      ensures RecordsOf(p, hits)[j] == RecordAt(p, hits[j])
    {
      RecordOfHit(p, hits, j);
    }
  }

  /**
   * The loop, when no window is empty, is the reference "filter, then build":
   * its result is the records of exactly the triggering windows, one each, with
   * no merging.
   */
  lemma {:induction false} ScanIsRecordsOfHits(p: Params, starts: seq<int>)
    requires p.fs > 0 && NonEmptyWindows(p, starts)
    ensures Scan(p, starts) == Success(RecordsOf(p, Hits(p, starts)))
  {
    if |starts| > 0 {
      var init, i := starts[..|starts| - 1], starts[|starts| - 1];
      assert forall k :: 0 <= k < |init| ==> init[k] == starts[k];
      ScanIsRecordsOfHits(p, init);
      if Triggers(p, i) {
        ScanStepTriggers(p, starts);
      } else {
        ScanStepQuiet(p, starts);
      }
    }
  }

  /** A triggering window appends its record to the scan and its start to the hits. */
  lemma ScanStepTriggers(p: Params, starts: seq<int>)
    requires p.fs > 0 && |starts| > 0 && NonEmptyWindows(p, starts)
    requires NonEmptyWindows(p, starts[..|starts| - 1])
    requires Scan(p, starts[..|starts| - 1]) == Success(RecordsOf(p, Hits(p, starts[..|starts| - 1])))
    requires Triggers(p, starts[|starts| - 1])
    ensures Scan(p, starts) == Success(RecordsOf(p, Hits(p, starts)))
  {
    var i := starts[|starts| - 1];
    var prev := Hits(p, starts[..|starts| - 1]);
    assert Hits(p, starts) == prev + [i];
    assert (prev + [i])[..|prev|] == prev;
  }

  /** A quiet window changes neither the scan nor the hits. */
  lemma ScanStepQuiet(p: Params, starts: seq<int>)
    requires p.fs > 0 && |starts| > 0 && NonEmptyWindows(p, starts)
    requires NonEmptyWindows(p, starts[..|starts| - 1])
    requires Scan(p, starts[..|starts| - 1]) == Success(RecordsOf(p, Hits(p, starts[..|starts| - 1])))
    requires !Triggers(p, starts[|starts| - 1])
    ensures Scan(p, starts) == Success(RecordsOf(p, Hits(p, starts)))
  {
    var prev := Hits(p, starts[..|starts| - 1]);
    assert Hits(p, starts) == prev;
    assert RecordsOf(p, prev) + [] == RecordsOf(p, prev);
  }

  /** In a well-formed run every visited window is a full window. */
  lemma WellFormedWindows(p: Params)
    requires WellFormed(p)
    ensures forall k :: 0 <= k < |Starts(p)| ==> |WindowAt(p, Starts(p)[k])| == p.w
    ensures Increasing(Starts(p))
  {
    WindowsInsideBuffer(p);
    var starts := Starts(p);
    forall j, k | 0 <= j < k < |starts|
      ensures starts[j] < starts[k]
    {
      assert starts[k] - starts[j] == (k - j) * p.hop;
      MulAtLeast(k - j, p.hop);
    }
  }

  /** A well-formed run succeeds once `total_windows` is non-zero whenever the loop runs. */
  lemma WellFormedTotal(p: Params)
    requires WellFormed(p)
    ensures |Starts(p)| > 0 ==> TotalWindows(p) >= 1
  {
    if |Starts(p)| > 0 {
      assert InRange(Starts(p)[0], |p.audio| - p.w, p.hop);
      var q := TotalWindows(p);
      FloorDivBounds(|p.audio|, p.hop);
      if q < 0 {
        MulAtLeast(-q, p.hop);
      }
    }
  }

  /**
   * A well-formed run succeeds, and its detections are one record per
   * triggering window, in window order: a visited start has a record exactly
   * when its band is non-empty and its band RMS is strictly above the threshold.
   */
  lemma DetectionsAreTriggeringWindows(p: Params)
    requires WellFormed(p)
    ensures NonEmptyWindows(p, Starts(p))
    ensures var hits := Hits(p, Starts(p));
      && Run(p) == Success(RecordsOf(p, hits))
      && (forall k :: 0 <= k < |Starts(p)| ==> (Starts(p)[k] in hits <==> Triggers(p, Starts(p)[k])))
      && (forall h :: h in hits ==> h in Starts(p))
      && Increasing(hits)
  {
    WellFormedWindows(p);
    WellFormedTotal(p);
    ScanIsRecordsOfHits(p, Starts(p));
    HitsComplete(p, Starts(p));
    HitsIncreasing(p, Starts(p));
  }

  lemma DivStrictMonotone(a: real, b: real, d: real)
    requires a < b && d > 0.0
    ensures a / d < b / d
  {
    assert b / d - a / d == (b - a) / d;
  }

  /** The times of a window `[i, i + w)` inside a buffer of `n` samples, in seconds. */
  lemma SpanSeconds(i: int, w: int, n: int, fs: nat)
    requires 0 <= i && 0 < w && i + w < n && fs > 0
    ensures 0.0 <= Seconds(i, fs) < Seconds(i + w, fs) < Seconds(n, fs)
    ensures Seconds(i + w, fs) - Seconds(i, fs) == Seconds(w, fs)
  {
    var f := fs as real;
    DivStrictMonotone(i as real, (i + w) as real, f);
    DivStrictMonotone((i + w) as real, n as real, f);
    assert (i + w) as real / f - i as real / f == ((i + w) as real - i as real) / f;
  }

  /**
   * Record j carries the times of the in-buffer window `[starts[j], starts[j] + w)`:
   * `start_time == starts[j]/fs` and `end_time == (starts[j] + w)/fs`.
   */
  predicate WindowRecords(audio: seq<real>, fs: nat, ds: seq<Detection>, starts: seq<int>, w: nat)
  {
    && fs > 0
    && |starts| == |ds|
    && forall j :: 0 <= j < |ds| ==>
      && ds[j].startTime == Seconds(starts[j], fs)
      && ds[j].endTime == Seconds(starts[j] + w, fs)
      && 0 <= starts[j] && starts[j] + w <= |audio|
  }

  /** The records of the in-buffer triggering windows `hits` carry those windows' times. */
  lemma HitRecordWindows(p: Params, hits: seq<int>)
    requires p.fs > 0 && p.w >= 0
    requires NonEmptyAt(p, hits)
    requires forall h :: h in hits ==> 0 <= h && h + p.w < |p.audio|
    ensures WindowRecords(p.audio, p.fs, RecordsOf(p, hits), hits, p.w)
  {
    var ds := RecordsOf(p, hits);
    forall j | 0 <= j < |hits|
      ensures 0 <= hits[j] && hits[j] + p.w <= |p.audio|
      ensures ds[j].startTime == Seconds(hits[j], p.fs) && ds[j].endTime == Seconds(hits[j] + p.w, p.fs)
    {
      HitRecordTimes(p, hits, j);
    }
  }

  /** Record `j` of the hits carries the times of hit window `j`. */
  lemma HitRecordTimes(p: Params, hits: seq<int>, j: nat)
    requires p.fs > 0 && NonEmptyAt(p, hits) && j < |hits|
    ensures hits[j] in hits
    ensures RecordsOf(p, hits)[j].startTime == Seconds(hits[j], p.fs)
    ensures RecordsOf(p, hits)[j].endTime == Seconds(hits[j] + p.w, p.fs)
  {
    RecordOfHit(p, hits, j);
    RecordWindow(p, hits[j]);
  }

  /** The record of the window starting at `i` carries the times of `[i, i + w)`. */
  lemma RecordWindow(p: Params, i: int)
    requires p.fs > 0 && |WindowAt(p, i)| > 0
    ensures RecordAt(p, i).startTime == Seconds(i, p.fs)
    ensures RecordAt(p, i).endTime == Seconds(i + p.w, p.fs)
  {
  }

  /** The record of an in-buffer triggering window `[i, i + w)` carries that window's times. */
  lemma RecordTimes(p: Params, i: int)
    requires p.fs > 0 && 0 < p.w && 0 <= i && i + p.w < |p.audio|
    requires |WindowAt(p, i)| > 0
    ensures var d := RecordAt(p, i);
      && d.startTime == Seconds(i, p.fs)
      && d.endTime == Seconds(i + p.w, p.fs)
      && 0.0 <= d.startTime < d.endTime < Seconds(|p.audio|, p.fs)
      && d.duration == d.endTime - d.startTime == Seconds(p.w, p.fs)
  {
    SpanSeconds(i, p.w, |p.audio|, p.fs);
  }

  /**
   * Every record of a well-formed run lies inside the file and spans exactly
   * one window: `0 <= start_time < end_time < len(audio)/fs`, and
   * `duration == end_time - start_time == window_size/fs`.
   */
  lemma DetectionTimes(p: Params)
    requires WellFormed(p)
    ensures Run(p).Success?
    ensures forall d :: d in Run(p).value ==>
      && 0.0 <= d.startTime < d.endTime < Seconds(|p.audio|, p.fs)
      && d.duration == d.endTime - d.startTime == Seconds(p.w, p.fs)
  {
    DetectionsAreTriggeringWindows(p);
    StartsInsideBuffer(p);
    var hits := Hits(p, Starts(p));
    var ds := Run(p).value;
    RecordsOfAt(p, hits);
    forall d | d in ds
      ensures 0.0 <= d.startTime < d.endTime < Seconds(|p.audio|, p.fs)
      ensures d.duration == d.endTime - d.startTime == Seconds(p.w, p.fs)
    {
      var j :| 0 <= j < |ds| && ds[j] == d;
      assert hits[j] in hits;
      RecordTimes(p, hits[j]);
    }
  }

  /**
   * Every record of a well-formed run is loud: its band is non-empty, so it
   * lists at least one ultrasonic frequency, its RMS is strictly above the
   * threshold, and every frequency it lists is at or above the cutoff.
   */
  lemma DetectionsAreLoud(p: Params)
    requires WellFormed(p)
    ensures Run(p).Success?
    ensures forall d :: d in Run(p).value ==> d.rms > p.threshold && |d.ultrasonicFreqs| > 0
    ensures forall d, f :: d in Run(p).value && f in d.ultrasonicFreqs ==> f >= p.cutoff
  {
    DetectionsAreTriggeringWindows(p);
    var hits := Hits(p, Starts(p));
    var ds := Run(p).value;
    RecordsOfAt(p, hits);
    forall d | d in ds
      ensures d.rms > p.threshold && |d.ultrasonicFreqs| > 0
      ensures forall f :: f in d.ultrasonicFreqs ==> f >= p.cutoff
    {
      var j :| 0 <= j < |ds| && ds[j] == d;
      assert hits[j] in hits;
      LoudRecord(p, hits[j]);
    }
  }

  /**
   * The record of a triggering window carries its band RMS and at least one
   * band frequency, and lists only frequencies at or above the cutoff.
   */
  lemma LoudRecord(p: Params, i: int)
    requires p.fs > 0 && |WindowAt(p, i)| > 0 && Triggers(p, i)
    ensures RecordAt(p, i).rms > p.threshold && |RecordAt(p, i).ultrasonicFreqs| > 0
    ensures forall f :: f in RecordAt(p, i).ultrasonicFreqs ==> f >= p.cutoff
  {
    BandFreqsAboveCutoff(SpectrumOf(p.num, WindowAt(p, i), p.fs), p.cutoff);
  }

  /** The records of a well-formed run appear in strictly increasing start time. */
  lemma DetectionsOrdered(p: Params)
    requires WellFormed(p)
    ensures Run(p).Success?
    ensures var ds := Run(p).value;
      forall j, k :: 0 <= j < k < |ds| ==> ds[j].startTime < ds[k].startTime
  {
    DetectionsAreTriggeringWindows(p);
    StartsInsideBuffer(p);
    var hits := Hits(p, Starts(p));
    HitRecordWindows(p, hits);
    var ds := Run(p).value;
    forall j, k | 0 <= j < k < |ds|
      ensures ds[j].startTime < ds[k].startTime
    {
      DivStrictMonotone(hits[j] as real, hits[k] as real, p.fs as real);
      assert Seconds(hits[j], p.fs) < Seconds(hits[k], p.fs);
    }
  }

  /** A full window whose band is empty never triggers. */
  lemma QuietAboveTopBin(p: Params, i: int)
    requires |WindowAt(p, i)| == p.w > 0 && p.cutoff > TopBinFreq(p.w, p.fs)
    ensures !Triggers(p, i)
  {
    BandMagsEmptyIff(p.num, WindowAt(p, i), p.fs, p.cutoff);
  }

  /**
   * A cutoff above the top bin `(window_size//2)*fs/window_size` leaves every
   * band empty, so a well-formed run detects nothing.
   */
  lemma EmptyBandDetectsNothing(p: Params)
    requires WellFormed(p) && p.cutoff > TopBinFreq(p.w, p.fs)
    ensures Run(p) == Success([])
  {
    DetectionsAreTriggeringWindows(p);
    WellFormedWindows(p);
    var starts := Starts(p);
    var hits := Hits(p, starts);
    if |hits| > 0 {
      var i := hits[0];
      assert i in hits;
      var k :| 0 <= k < |starts| && starts[k] == i;
      QuietAboveTopBin(p, i);
    }
  }

  // ------------------------------------------------------------------
  // Monotonicity in the threshold
  // ------------------------------------------------------------------

  /** `a` is `b` with some elements left out, order kept. */
  predicate Subsequence<T(==)>(a: seq<T>, b: seq<T>)
    decreases |b|
  {
    |a| == 0 ||
    (|b| > 0 &&
      ((a[|a| - 1] == b[|b| - 1] && Subsequence(a[..|a| - 1], b[..|b| - 1])) ||
        Subsequence(a, b[..|b| - 1])))
  }

  lemma {:induction false} SubsequenceLength<T>(a: seq<T>, b: seq<T>)
    requires Subsequence(a, b)
    ensures |a| <= |b|
    decreases |b|
  {
    if |a| > 0 {
      if a[|a| - 1] == b[|b| - 1] && Subsequence(a[..|a| - 1], b[..|b| - 1]) {
        SubsequenceLength(a[..|a| - 1], b[..|b| - 1]);
      } else {
        SubsequenceLength(a, b[..|b| - 1]);
      }
    }
  }

  /** Appending the same element to both sides, or to the longer side only, keeps a subsequence. */
  lemma SubsequenceSnoc<T>(a: seq<T>, b: seq<T>, x: T)
    requires Subsequence(a, b)
    ensures Subsequence(a + [x], b + [x]) && Subsequence(a, b + [x])
  {
    assert (a + [x])[..|a|] == a && (b + [x])[..|b|] == b;
  }

  /** The threshold only gates a window: its samples, band and record do not depend on it. */
  lemma ThresholdOnlyGates(p: Params, t: real, i: int)
    requires p.fs > 0 && |WindowAt(p, i)| > 0 && t >= p.threshold
    ensures WindowAt(p.(threshold := t), i) == WindowAt(p, i)
    ensures RecordAt(p.(threshold := t), i) == RecordAt(p, i)
    ensures Triggers(p.(threshold := t), i) ==> Triggers(p, i)
  {
    assert BandAt(p.(threshold := t), i) == BandAt(p, i);
  }

  lemma {:induction false} ScanMonotone(p: Params, t: real, starts: seq<int>)
    requires p.fs > 0 && t >= p.threshold
    ensures var hi := Scan(p.(threshold := t), starts); var lo := Scan(p, starts);
      && hi.Success? == lo.Success?
      && (lo.Success? ==> Subsequence(hi.value, lo.value))
  {
    var p' := p.(threshold := t);
    if |starts| > 0 {
      var init, i := starts[..|starts| - 1], starts[|starts| - 1];
      ScanMonotone(p, t, init);
      if Scan(p, init).Success? && |WindowAt(p, i)| > 0 {
        ThresholdOnlyGates(p, t, i);
        var a, b := Scan(p', init).value, Scan(p, init).value;
        var x := RecordAt(p, i);
        SubsequenceSnoc(a, b, x);
        assert a + [] == a && b + [] == b;
      }
    }
  }

  /**
   * Raising the threshold, everything else fixed, keeps success or failure and
   * yields a subsequence of the earlier detections, so never more of them.
   */
  lemma ThresholdMonotone(job: Job, t: real)
    requires t >= job.settings.threshold
    ensures var hi := Analyze(job.(settings := job.settings.(threshold := t))); var lo := Analyze(job);
      && hi.Success? == lo.Success?
      && (lo.Success? ==> Subsequence(hi.value, lo.value) && |hi.value| <= |lo.value|)
  {
    var p := ParamsOf(job);
    ParamsIgnoreThreshold(job, t);
    if job.fs == 0 { ZeroRateZeroHop(job); }
    RunMonotone(p, t);
  }

  /** Changing the threshold changes nothing else in the loop parameters. */
  lemma ParamsIgnoreThreshold(job: Job, t: real)
    ensures ParamsOf(job.(settings := job.settings.(threshold := t))) == ParamsOf(job).(threshold := t)
  {
  }

  /** `ThresholdMonotone` for the loop parameters. */
  lemma RunMonotone(p: Params, t: real)
    requires p.fs > 0 || p.hop == 0
    requires t >= p.threshold
    ensures var hi := Run(p.(threshold := t)); var lo := Run(p);
      && hi.Success? == lo.Success?
      && (lo.Success? ==> Subsequence(hi.value, lo.value) && |hi.value| <= |lo.value|)
  {
    var p' := p.(threshold := t);
    if p.hop != 0 {
      assert Starts(p') == Starts(p) && TotalWindows(p') == TotalWindows(p);
      if !(|Starts(p)| > 0 && TotalWindows(p) == 0) {
        ScanMonotone(p, t, Starts(p));
        assert Run(p') == Scan(p', Starts(p)) && Run(p) == Scan(p, Starts(p));
        if Run(p).Success? {
          SubsequenceLength(Run(p').value, Run(p).value);
        }
      }
    }
  }

  // ------------------------------------------------------------------
  // Progress
  // ------------------------------------------------------------------

  lemma MulLe(a: int, b: int, c: int)
    requires a <= b && c >= 0
    ensures a * c <= b * c
  {
    if a < b { MulAtLeast(b - a, c + 1); assert (b - a) * c >= 0; }
  }

  /** `100*k/total`, the share of `total` windows that `k` windows make. */
  function Percent(k: int, total: int): real
    requires total != 0
  {
    k as real / total as real * 100.0
  }

  /** The percentage posted before the k-th window is `100*k/total_windows`. */
  lemma ProgressOfWindow(k: nat, hop: int, total: int)
    requires hop > 0 && total > 0
    ensures ProgressAt(k * hop, hop, total) == Percent(k, total)
  {
    assert (k * hop) as real == k as real * hop as real;
    assert (k * hop) as real / hop as real == k as real;
  }

  /** A window index whose start is below the buffer length is at most `len(audio) // hop_size`. */
  lemma WindowIndexAtMostTotal(k: nat, hop: int, n: nat)
    requires hop > 0 && k * hop < n
    ensures k <= FloorDiv(n, hop)
  {
    var total := FloorDiv(n, hop);
    FloorDivBounds(n, hop);
    if k > total {
      MulLe(total + 1, k, hop);
    }
  }

  lemma PercentBounds(k: nat, total: int)
    requires 0 < total && k <= total
    ensures 0.0 <= Percent(k, total) <= 100.0
  {
    DivMonotone(k as real, total as real, total as real);
  }

  lemma PercentIncreasing(j: int, k: int, total: int)
    requires j < k && total > 0
    ensures Percent(j, total) < Percent(k, total)
  {
    DivStrictMonotone(j as real, k as real, total as real);
  }

  /** The k-th posted percentage is `100*k/total_windows`, within `[0, 100]`. */
  lemma ProgressEntry(n: nat, w: int, hop: int, k: nat)
    requires 0 < hop <= w && FloorDiv(n, hop) != 0
    requires k < |ProgressSeries(n, w, hop)|
    ensures FloorDiv(n, hop) > 0
    ensures ProgressSeries(n, w, hop)[k] == Percent(k, FloorDiv(n, hop))
    ensures 0.0 <= ProgressSeries(n, w, hop)[k] <= 100.0
  {
    var total := FloorDiv(n, hop);
    FloorDivBounds(n, hop);
    var starts := Range(n - w, hop);
    assert starts[k] == 0 + k * hop && InRange(starts[k], n - w, hop);
    ProgressOfWindow(k, hop, total);
    WindowIndexAtMostTotal(k, hop, n);
    PercentBounds(k, total);
  }

  /**
   * With `0 < hop <= w` the posted percentages are `100*k/total_windows` for
   * the k-th window: they lie in `[0, 100]` and strictly increase.
   */
  lemma ProgressBounded(n: nat, w: int, hop: int)
    requires 0 < hop <= w
    ensures var p := ProgressSeries(n, w, hop);
      && (forall k :: 0 <= k < |p| ==> 0.0 <= p[k] <= 100.0)
      && (forall j, k :: 0 <= j < k < |p| ==> p[j] < p[k])
  {
    var p := ProgressSeries(n, w, hop);
    if FloorDiv(n, hop) != 0 {
      forall k | 0 <= k < |p|
        ensures 0.0 <= p[k] <= 100.0
      {
        ProgressEntry(n, w, hop, k);
      }
      forall j, k | 0 <= j < k < |p|
        ensures p[j] < p[k]
      {
        ProgressEntry(n, w, hop, j);
        ProgressEntry(n, w, hop, k);
        PercentIncreasing(j, k, FloorDiv(n, hop));
      }
    }
  }

  /** A loop over `starts` that never fails posts one percentage per window. */
  lemma {:induction false} PostedWhileSucceeding(p: Params, starts: seq<int>, total: int)
    requires p.fs > 0 && p.hop != 0 && total != 0
    requires Scan(p, starts).Success?
    ensures PostedOver(p, starts, total) == Percentages(starts, p.hop, total)
  {
    if |starts| > 0 {
      var init := starts[..|starts| - 1];
      assert Scan(p, init).Success?;
      PostedWhileSucceeding(p, init, total);
    }
  }

  /**
   * A run that succeeds posts the full progress series: one percentage per
   * window, `100*k/total_windows` for the k-th.
   */
  lemma PostedOnSuccess(p: Params)
    requires p.fs > 0 || p.hop == 0
    requires Run(p).Success?
    ensures Posted(p) == ProgressSeries(|p.audio|, p.w, p.hop)
  {
    if TotalWindows(p) != 0 {
      PostedWhileSucceeding(p, Starts(p), TotalWindows(p));
    }
  }

  /** After the first error the loop neither changes its result nor posts again. */
  lemma {:induction false} FailureSticks(p: Params, starts: seq<int>, k: nat, total: int)
    requires p.fs > 0 && p.hop != 0 && total != 0
    requires k <= |starts| && Scan(p, starts[..k]).Failure?
    ensures Scan(p, starts) == Scan(p, starts[..k])
    ensures PostedOver(p, starts, total) == PostedOver(p, starts[..k], total)
    decreases |starts|
  {
    if k < |starts| {
      var init := starts[..|starts| - 1];
      assert init[..k] == starts[..k];
      FailureSticks(p, init, k, total);
    } else {
      assert starts[..k] == starts;
    }
  }

  /**
   * One more iteration of the loop, from a prefix that has not failed: it
   * posts one percentage, then fails on an empty window.
   */
  lemma ScanStep(p: Params, starts: seq<int>, k: nat, total: int)
    requires p.fs > 0 && p.hop != 0 && total != 0
    requires k < |starts| && Scan(p, starts[..k]).Success?
    ensures |WindowAt(p, starts[k])| == 0 ==> Scan(p, starts[..k + 1]) == Failure(EmptyWindow(starts[k]))
    ensures PostedOver(p, starts[..k + 1], total) ==
      PostedOver(p, starts[..k], total) + [ProgressAt(starts[k], p.hop, total)]
  {
    assert starts[..k + 1][..k] == starts[..k];
  }

  /** An iteration whose window is not empty adds that window's record exactly when it triggers. */
  lemma ScanStepWindow(p: Params, starts: seq<int>, k: nat)
    requires p.fs > 0 && k < |starts| && Scan(p, starts[..k]).Success?
    requires |WindowAt(p, starts[k])| > 0
    ensures Scan(p, starts[..k + 1]) == Success(Scan(p, starts[..k]).value +
      if Triggers(p, starts[k]) then [RecordAt(p, starts[k])] else [])
  {
    assert starts[..k + 1][..k] == starts[..k];
  }

  /**
   * The loop over the outcomes of its windows, in order: the records of each
   * window appended until the first error.
   */
  function Collect(outs: seq<Result<seq<Detection>, AnalysisError>>): Result<seq<Detection>, AnalysisError>
  {
    if |outs| == 0 then Success([])
    else
      match Collect(outs[..|outs| - 1])
      case Failure(e) => Failure(e)
      case Success(ds) =>
        match outs[|outs| - 1]
        case Failure(e) => Failure(e)
        case Success(d) => Success(ds + d)
  }

  /**
   * `outs` holds the outcome of each window at `starts`. The trigger keeps the
   * per-window analysis out of sight until a window's outcome is asked for.
   */
  ghost predicate OutcomesAre(p: Params, starts: seq<int>, outs: seq<Result<seq<Detection>, AnalysisError>>)
  {
    && p.fs > 0
    && |outs| == |starts|
    && forall j {:trigger WindowOutcome(p, starts[j])} :: 0 <= j < |starts| ==> outs[j] == WindowOutcome(p, starts[j])
  }

  /** The loop over the windows at `starts` is the loop over their outcomes. */
  lemma {:induction false} CollectIsScan(p: Params, starts: seq<int>, outs: seq<Result<seq<Detection>, AnalysisError>>)
    requires OutcomesAre(p, starts, outs)
    ensures Scan(p, starts) == Collect(outs)
  {
    if |starts| > 0 {
      var n := |starts|;
      assert WindowOutcome(p, starts[n - 1]) == outs[n - 1];
      var init, prev := starts[..n - 1], outs[..n - 1];
      forall j | 0 <= j < |init|
        ensures prev[j] == WindowOutcome(p, init[j])
      {
        assert WindowOutcome(p, starts[j]) == outs[j];
      }
      CollectIsScan(p, init, prev);
    }
  }

  /**
   * The state of the loop before its `k`-th iteration: `i` is the `k`-th start
   * (or the loop condition fails when every start is done), `outs` are the
   * outcomes of the first `k` windows, none an error, `ds` their records and
   * `posted` the percentages posted so far.
   */
  ghost predicate LoopAt(p: Params, k: nat, i: int, ds: seq<Detection>, posted: seq<real>,
                         outs: seq<Result<seq<Detection>, AnalysisError>>)
  {
    p.fs > 0 && p.hop != 0 && AtStart(p, k, i) && Done(p, k, ds, posted, outs)
  }

  /** `i` is the `k`-th start, or the loop condition fails once every start is done. */
  ghost predicate AtStart(p: Params, k: nat, i: int)
    requires p.hop != 0
  {
    var starts := Starts(p);
    && k <= |starts|
    && (k < |starts| ==> i == starts[k])
    && (k == |starts| <==> !InRange(i, |p.audio| - p.w, p.hop))
    && (TotalWindows(p) == 0 ==> k == 0)
  }

  /** The first `k` windows have the outcomes `outs`, none an error, with records `ds` and posts `posted`. */
  ghost predicate Done(p: Params, k: nat, ds: seq<Detection>, posted: seq<real>,
                       outs: seq<Result<seq<Detection>, AnalysisError>>)
    requires p.fs > 0 && p.hop != 0 && k <= |Starts(p)|
  {
    var starts := Starts(p);
    var total := TotalWindows(p);
    && OutcomesAre(p, starts[..k], outs)
    && Collect(outs) == Success(ds)
    && posted == (if total == 0 then [] else Percentages(starts[..k], p.hop, total))
  }

  /** The loop starts at sample 0 with no records and nothing posted. */
  lemma LoopStarts(p: Params)
    requires p.fs > 0 && p.hop != 0
    ensures LoopAt(p, 0, 0, [], [], [])
  {
    RangeStep(0, |p.audio| - p.w, p.hop, 0);
  }

  /** Before iteration `k`, the loop so far has run the first `k` windows without error. */
  lemma LoopSoFar(p: Params, k: nat, i: int, ds: seq<Detection>, posted: seq<real>,
                  outs: seq<Result<seq<Detection>, AnalysisError>>)
    requires LoopAt(p, k, i, ds, posted, outs)
    ensures Scan(p, Starts(p)[..k]) == Success(ds)
    ensures TotalWindows(p) != 0 ==> PostedOver(p, Starts(p)[..k], TotalWindows(p)) == posted
  {
    CollectIsScan(p, Starts(p)[..k], outs);
    if TotalWindows(p) != 0 {
      PostedWhileSucceeding(p, Starts(p)[..k], TotalWindows(p));
    }
  }

  /** When the loop condition fails, the loop has produced the run's records and posts. */
  lemma LoopEnds(p: Params, k: nat, i: int, ds: seq<Detection>, posted: seq<real>,
                 outs: seq<Result<seq<Detection>, AnalysisError>>)
    requires LoopAt(p, k, i, ds, posted, outs) && !InRange(i, |p.audio| - p.w, p.hop)
    ensures Run(p) == Success(ds) && Posted(p) == posted
  {
    LoopSoFar(p, k, i, ds, posted, outs);
    assert Starts(p)[..k] == Starts(p);
  }

  /**
   * The iteration at start `i` raised `e` after posting `post`: with
   * `total_windows == 0` before posting anything, otherwise on an empty window
   * after posting its percentage.
   */
  ghost predicate Raised(p: Params, i: int, e: AnalysisError, post: seq<real>)
    requires p.hop != 0
  {
    if TotalWindows(p) == 0 then e == ZeroTotalWindows && post == []
    else |WindowAt(p, i)| == 0 && e == EmptyWindow(i) && post == [ProgressAt(i, p.hop, TotalWindows(p))]
  }

  /** An iteration that raises ends the run with its error and its posts. */
  lemma LoopRaises(p: Params, k: nat, i: int, ds: seq<Detection>, posted: seq<real>,
                   outs: seq<Result<seq<Detection>, AnalysisError>>, e: AnalysisError, post: seq<real>)
    requires LoopAt(p, k, i, ds, posted, outs) && InRange(i, |p.audio| - p.w, p.hop)
    requires Raised(p, i, e, post)
    ensures Run(p) == Failure(e) && Posted(p) == posted + post
  {
    var starts, total := Starts(p), TotalWindows(p);
    if total != 0 {
      LoopSoFar(p, k, i, ds, posted, outs);
      ScanStep(p, starts, k, total);
      FailureSticks(p, starts, k + 1, total);
    }
  }

  /** The outcomes of one more window. */
  lemma OutcomesSnoc(p: Params, starts: seq<int>, outs: seq<Result<seq<Detection>, AnalysisError>>, i: int)
    requires OutcomesAre(p, starts, outs)
    ensures OutcomesAre(p, starts + [i], outs + [WindowOutcome(p, i)])
  {
    var next, outs' := starts + [i], outs + [WindowOutcome(p, i)];
    forall j | 0 <= j < |next|
      ensures outs'[j] == WindowOutcome(p, next[j])
    {
      if j < |starts| {
        assert WindowOutcome(p, starts[j]) == outs[j];
      }
    }
  }

  /**
   * An iteration whose window is not empty posts its percentage, appends the
   * window's records `d` and moves one hop on.
   */
  lemma LoopNext(p: Params, k: nat, i: int, ds: seq<Detection>, posted: seq<real>,
                 outs: seq<Result<seq<Detection>, AnalysisError>>, d: seq<Detection>)
    requires LoopAt(p, k, i, ds, posted, outs) && InRange(i, |p.audio| - p.w, p.hop)
    requires TotalWindows(p) != 0 && OutcomesAre(p, Starts(p)[..k] + [i], outs + [Success(d)])
    ensures LoopAt(p, k + 1, i + p.hop, ds + d, posted + [ProgressAt(i, p.hop, TotalWindows(p))],
                   outs + [Success(d)])
  {
    var starts, total := Starts(p), TotalWindows(p);
    RangeStep(0, |p.audio| - p.w, p.hop, k);
    assert starts[..k] + [i] == starts[..k + 1];
    assert (outs + [Success(d)])[..k] == outs;
    assert Percentages(starts[..k + 1], p.hop, total) == Percentages(starts[..k], p.hop, total) + [ProgressAt(i, p.hop, total)];
  }

  // ------------------------------------------------------------------
  // Playing back the detected spans
  // ------------------------------------------------------------------

  /** What the "Play Detection" command does. */
  datatype Playback =
    | NothingToPlay                         // no results yet, or none detected: a warning
    | NothingPlayed                         // every span was empty
    | Played(samples: seq<real>, rate: nat) // `sd.play(combined_audio, sample_rate)`

  /** `int(t * fs)`: a time in seconds back to a sample index. */
  function SampleIndex(t: real, fs: nat): int
  {
    Trunc(t * fs as real)
  }

  /** `audio[int(start_time * fs):int(end_time * fs)]`. */
  function SpanOf(audio: seq<real>, fs: nat, d: Detection): seq<real>
  {
    Slice(audio, SampleIndex(d.startTime, fs), SampleIndex(d.endTime, fs))
  }

  /** The span of every record, in record order. */
  function Spans(audio: seq<real>, fs: nat, ds: seq<Detection>): seq<seq<real>>
  {
    seq(|ds|, j requires 0 <= j < |ds| => SpanOf(audio, fs, ds[j]))
  }

  /** The spans of the records, concatenated in record order. */
  function Combined(audio: seq<real>, fs: nat, ds: seq<Detection>): seq<real>
  {
    Concat(Spans(audio, fs, ds))
  }

  function PlaybackOf(audio: seq<real>, fs: nat, results: Option<seq<Detection>>): Playback
  {
    if results.None? || |results.value| == 0 then NothingToPlay
    else
      var combined := Combined(audio, fs, results.value);
      if |combined| == 0 then NothingPlayed else Played(combined, fs)
  }

  /** A time `i/fs` converted back with `int(t * fs)` is the sample index `i` again (exact arithmetic). */
  lemma SecondsBackToSample(i: int, fs: nat, t: real)
    requires fs > 0 && t == Seconds(i, fs)
    ensures SampleIndex(t, fs) == i
  {
    assert t * fs as real == i as real;
  }

  /** Blocks of samples, one after the other. */
  function Concat(blocks: seq<seq<real>>): seq<real>
  {
    if |blocks| == 0 then [] else Concat(blocks[..|blocks| - 1]) + blocks[|blocks| - 1]
  }

  /** The windows `[starts[j], starts[j] + w)` of the buffer, in order. */
  function Windows(audio: seq<real>, starts: seq<int>, w: nat): seq<seq<real>>
    requires forall j :: 0 <= j < |starts| ==> 0 <= starts[j] && starts[j] + w <= |audio|
  {
    seq(|starts|, j requires 0 <= j < |starts| => audio[starts[j]..starts[j] + w])
  }

  lemma {:induction false} ConcatLength(blocks: seq<seq<real>>, w: nat)
    requires forall j :: 0 <= j < |blocks| ==> |blocks[j]| == w
    ensures |Concat(blocks)| == |blocks| * w
  {
    if |blocks| > 0 {
      ConcatLength(blocks[..|blocks| - 1], w);
      assert (|blocks| - 1) * w + w == |blocks| * w;
    }
  }

  /** The span of a record carrying the times of `[s, s + w)` is exactly those samples. */
  lemma SpanOfWindow(audio: seq<real>, fs: nat, d: Detection, s: int, w: nat)
    requires fs > 0 && 0 <= s && s + w <= |audio|
    requires d.startTime == Seconds(s, fs) && d.endTime == Seconds(s + w, fs)
    ensures SpanOf(audio, fs, d) == audio[s..s + w]
  {
    SecondsBackToSample(s, fs, d.startTime);
    SecondsBackToSample(s + w, fs, d.endTime);
    SpanOfIndices(audio, fs, d, s, s + w);
  }

  /** A record whose times convert back to `lo` and `hi` spans `audio[lo..hi]`. */
  lemma SpanOfIndices(audio: seq<real>, fs: nat, d: Detection, lo: int, hi: int)
    requires SampleIndex(d.startTime, fs) == lo && SampleIndex(d.endTime, fs) == hi
    requires 0 <= lo <= hi <= |audio|
    ensures SpanOf(audio, fs, d) == audio[lo..hi]
  {
  }

  /** The span of record j is the in-buffer window `[starts[j], starts[j] + w)`. */
  predicate SpansAre(audio: seq<real>, fs: nat, ds: seq<Detection>, starts: seq<int>, w: nat)
  {
    && |starts| == |ds|
    && (forall j :: 0 <= j < |ds| ==> 0 <= starts[j] && starts[j] + w <= |audio|)
    && forall j :: 0 <= j < |ds| ==> SpanOf(audio, fs, ds[j]) == audio[starts[j]..starts[j] + w]
  }

  /** Records carrying the times of in-buffer windows span exactly those windows. */
  lemma WindowSpans(audio: seq<real>, fs: nat, ds: seq<Detection>, starts: seq<int>, w: nat)
    requires WindowRecords(audio, fs, ds, starts, w)
    ensures SpansAre(audio, fs, ds, starts, w)
  {
    forall j | 0 <= j < |ds|
      ensures SpanOf(audio, fs, ds[j]) == audio[starts[j]..starts[j] + w]
    {
      SpanOfWindow(audio, fs, ds[j], starts[j], w);
    }
  }

  /**
   * When record j spans the in-buffer window `[starts[j], starts[j] + w)`, the
   * played samples are those windows one after the other: samples shared by
   * overlapping windows are played once per window.
   */
  lemma CombinedLayout(audio: seq<real>, fs: nat, ds: seq<Detection>, starts: seq<int>, w: nat)
    requires SpansAre(audio, fs, ds, starts, w)
    ensures Combined(audio, fs, ds) == Concat(Windows(audio, starts, w))
  {
    assert Spans(audio, fs, ds) == Windows(audio, starts, w);
  }

  /** Playing one more record appends its span. */
  lemma CombinedSnoc(audio: seq<real>, fs: nat, ds: seq<Detection>, k: nat)
    requires k < |ds|
    ensures Combined(audio, fs, ds[..k + 1]) == Combined(audio, fs, ds[..k]) + SpanOf(audio, fs, ds[k])
  {
    var blocks := Spans(audio, fs, ds[..k + 1]);
    assert blocks[..k] == Spans(audio, fs, ds[..k]);
  }

  /**
   * Playing records whose times are those of in-buffer windows of `w > 0`
   * samples warns when there are none and otherwise plays the windows back to
   * back at the file's rate, `|ds| * w` samples.
   */
  lemma PlaybackOfWindows(audio: seq<real>, fs: nat, ds: seq<Detection>, starts: seq<int>, w: nat)
    requires w > 0 && WindowRecords(audio, fs, ds, starts, w)
    ensures PlaybackOf(audio, fs, Some(ds)) ==
      if |ds| == 0 then NothingToPlay else Played(Concat(Windows(audio, starts, w)), fs)
    ensures |Concat(Windows(audio, starts, w))| == |ds| * w
  {
    WindowSpans(audio, fs, ds, starts, w);
    CombinedLayout(audio, fs, ds, starts, w);
    ConcatLength(Windows(audio, starts, w), w);
    if |ds| > 0 {
      MulAtLeast(|ds|, w);
    }
  }

  /**
   * Playing the results of a well-formed run warns when nothing was detected,
   * and otherwise plays the detected windows back to back: `window_size`
   * samples per record, in record order.
   */
  lemma PlaysDetectedWindows(p: Params)
    requires WellFormed(p)
    ensures Run(p).Success?
    ensures NonEmptyWindows(p, Starts(p))
    ensures var hits := Hits(p, Starts(p));
      && |hits| == |Run(p).value|
      && (forall j :: 0 <= j < |hits| ==> 0 <= hits[j] && hits[j] + p.w <= |p.audio|)
      && PlaybackOf(p.audio, p.fs, Some(Run(p).value)) ==
         if hits == [] then NothingToPlay else Played(Concat(Windows(p.audio, hits, p.w)), p.fs)
  {
    DetectionsAreTriggeringWindows(p);
    var hits := Hits(p, Starts(p));
    HitsInsideBuffer(p);
    HitRecordWindows(p, hits);
    PlaybackOfWindows(p.audio, p.fs, RecordsOf(p, hits), hits, p.w);
  }

  lemma HitsInsideBuffer(p: Params)
    requires WellFormed(p)
    ensures NonEmptyWindows(p, Starts(p))
    ensures forall h :: h in Hits(p, Starts(p)) ==> 0 <= h && h + p.w < |p.audio|
  {
    WellFormedWindows(p);
    StartsInsideBuffer(p);
  }
}
