# Ultrasonic vocalisation detector, modelled in Dafny

This project models the detection core of a pair of Python desktop tools that
find ultrasonic vocalisations (short high-frequency calls) in audio. It also
proves properties of that model.

- `USV.py` is the offline analyser. `analyze_audio_data` cuts a loaded
  recording into overlapping windows and takes each window's spectrum. It keeps
  the bins at or above a frequency cutoff. It records a detection for every
  window whose band RMS is strictly above a threshold. It posts a
  progress percentage before each window. `play_detection` plays the
  detected spans back to back.
- `USV_detector.py` is the live detector. `check_audio_devices` looks for a
  Scarlett/Focusrite input and probes it at 192 kHz, then at 96 kHz. `start`
  and `stop` open and close the GPIO chip around a detector thread. The audio
  `callback` decides, block by block, whether to stop the stream, print a
  rate-limited debug line, or start a TTL pulse. `send_ttl` writes the pulse
  to a pin.

Modules, one per file:

| file | module | contents |
|---|---|---|
| `wrappers.dfy` | `Wrappers` | `Option` (Python's `None`) and `Result` (exceptions) |
| `py_ops.dfy` | `PyOps` | Python semantics the code relies on: `int()` truncation, `//`, slicing with clamping, `range` with any step, ASCII `lower()`, substring `in` |
| `spectral.dfy` | `Spectral` | rfft bin frequencies, the band mask, boolean indexing, the band RMS shared by both detectors, `argmax` |
| `file_analysis.dfy` | `FileAnalysis` | the offline analysis as functions (`Run`, `Posted`, `PlaybackOf`) and their properties |
| `file_analyzer_app.dfy` | `FileAnalyzerApp` | class `FileAnalyzer`: the analysis loop and the playback loop, proved against `FileAnalysis` |
| `devices.dfy` | `Devices` | `check_audio_devices`: the reference decision `CheckDevices` and the loop with `break` |
| `live_detector.dfy` | `LiveDetector` | class `Detector`: `Start`, `Stop`, `SendTtl`, `Callback`, with the pure per-block decision `Decide` |

The floating-point spectrum is abstract. `abs(rfft(window))[k]` and `sqrt`
are the two fields of a `Numerics` value that every analysis takes as a
parameter. Everything else is exact. Bin frequencies are `k*fs/n` over
reals. The mean of squares is an exact sum. Sizes, indices and the loop are
unbounded integers with Python's `int()`, `//`, slice and `range` semantics
written out.

The model follows the code as written:

- Window and hop sizes are truncated by `int()`, not rounded (USV.py:172-173).
- The loop bound is strict. `range(0, len - window_size, hop)` never visits
  the window that ends exactly at the end of the buffer (USV.py:178).
- The live callback starts a pulse on every block whose RMS is above the
  threshold. It does not wait for a transition from quiet to loud
  (USV_detector.py:192-200).
- A Scarlett that passes only the 96 kHz probe is still reported as not ready.
  The second probe chooses the message; it is not a fallback
  (USV_detector.py:104-111).
- The threshold may be any real. A negative threshold makes a block with
  an empty band (RMS 0.0) pulse; `LiveDetector.PulseIff` assumes a
  non-negative one.
- In file mode the cutoff is not clamped at 0 (USV.py:165); in live mode it is
  (USV_detector.py:169).

## Model

| member | source | states |
|---|---|---|
| PyOps.TruncTowardZero | USV.py:172-173 | `int()` truncates toward zero: for a non-negative value it is the largest integer not above it, for a negative value the smallest integer not below it |
| PyOps.FloorDivBounds | USV.py:176 | `//` floors: with a positive divisor, quotient times divisor is at most the dividend and within one divisor of it (mirrored for a negative divisor) |
| PyOps.Slice | USV.py:184 | a slice is never longer than the list, and with in-range bounds it is exactly the elements `lo..hi` |
| PyOps.RangeFrom | USV.py:178 | element `k` of `range(i, stop, step)` is `i + k*step` and passes the range test; the value one step after the last element does not |
| PyOps.RangeStep | USV.py:178 | a range is non-empty iff its start passes the test; it begins at the start, each element is the previous plus the step, and the step after the last fails the test |
| PyOps.RangeLength | USV.py:178 | with a positive step, `range(i, stop, step)` has `ceil((stop - i)/step)` elements when `stop > i`, and none otherwise |
| PyOps.Trunc | USV.py:172-173 | `int()` of a float (the definition; its meaning is `TruncTowardZero`) |
| PyOps.FloorDiv | USV.py:176 | Python's `//` (the definition; its meaning is `FloorDivBounds`) |
| PyOps.Range | USV.py:178 | `range(0, stop, step)` (the definition; its meaning is `RangeFrom`, `RangeStep` and `RangeLength`) |
| PyOps.Lower | USV_detector.py:89 | `str.lower()` on ASCII letters (the definition) |
| PyOps.HasSubstring | USV_detector.py:90 | `sub in s`: `sub` occurs at some position of `s` (the definition) |
| Spectral.BinFreqs | USV.py:188 | `rfftfreq(n)` has `n//2 + 1` bins |
| Spectral.Mask | USV.py:191 | the mask has one entry per frequency |
| Spectral.Select | USV.py:192 | boolean indexing keeps at most as many elements as it is given, and keeps none iff no mask entry is set |
| Spectral.CountKept | USV.py:191-192 | the number of set mask entries is at most the mask's length, and zero iff no entry is set |
| Spectral.SelectLength | USV.py:192 | `xs[mask]` has exactly one element per set mask entry |
| Spectral.SelectAt | USV.py:192 | in order: the element kept from position `k` is at the index counting the set entries before `k` |
| Spectral.SelectMembers | USV.py:192 | `xs[mask]` holds an element iff it is `xs[k]` for some set entry `k` |
| Spectral.BandFreqsAboveCutoff | USV.py:188-207 | `freqs[mask]` lists only frequencies at or above the cutoff, and every bin at or above the cutoff is listed |
| Spectral.BinFreq | USV.py:188 | bin `k` of an `n`-point transform at rate `fs` is at `k*fs/n` (the definition) |
| Spectral.TopBinFreq | USV_detector.py:187 | the highest bin, `freqs[-1]`, is at `(n//2)*fs/n` (the definition) |
| Spectral.BandMask | USV.py:191 | the band mask of a spectrum is `freqs >= cutoff` (the definition) |
| Spectral.BandMags | USV.py:192 | the band magnitudes are `abs(fft[mask])` (the definition) |
| Spectral.BandFreqs | USV.py:207 | the band frequencies are `freqs[mask]` (the definition) |
| Spectral.PeakFreq | USV.py:206 | the peak is `freqs[argmax(abs(fft))]`, taken over the whole spectrum (the definition) |
| Spectral.MeanSquare | USV.py:195 | `mean(abs(band)**2)` over a non-empty band, exactly (the definition) |
| Spectral.Rms | USV.py:195 | `sqrt(mean(abs(band)**2))` (the definition) |
| Spectral.BandRms | USV_detector.py:179-182 | the band RMS, or 0.0 for an empty band, shared by both detectors (the definition) |
| Spectral.SpectrumOf | USV.py:187-188 | a window of `n` samples has `n//2 + 1` frequencies and as many magnitudes |
| Spectral.ArgMax | USV.py:206 | `argmax` returns an index of a largest element, and the first such index when the maximum repeats |
| Spectral.SumSquares | USV.py:195 | a sum of squares is never negative |
| Spectral.BinFreqsMonotone | USV.py:188 | bin frequencies never decrease with the bin index |
| Spectral.MaskUpwardClosed | USV.py:188-191 | if bin `k` is in the band, every higher bin is too |
| Spectral.BandEmptyIff | USV.py:188-194 | the band is empty exactly when the cutoff is above the top bin `(n//2)*fs/n` |
| Spectral.BandMagsEmptyIff | USV.py:187-194 | the band magnitudes of any window are empty exactly when the cutoff is above its top bin |
| Spectral.SilentSumSquares | USV.py:195 | all-zero magnitudes have a zero sum of squares |
| Spectral.SilentBandIsQuiet | USV.py:195-197 | a silent band (with `sqrt(0) = 0`) never exceeds a non-negative threshold |
| FileAnalysis.WindowSize | USV.py:172 | `window_size = int(fs * window_size_ms / 1000.0)` (the definition) |
| FileAnalysis.HopSize | USV.py:173 | `hop_size = int(window_size * (1 - overlap/100))` (the definition) |
| FileAnalysis.ParamsOf | USV.py:164-173 | the sizes, the unclamped cutoff and the threshold derived from the settings (the definition) |
| FileAnalysis.TotalWindows | USV.py:176 | `len(audio) // hop_size` (the definition) |
| FileAnalysis.Starts | USV.py:178 | the starts `range(0, len(audio) - window_size, hop_size)` (the definition; its meaning is `WindowsInsideBuffer` and `WindowCount`) |
| FileAnalysis.WindowAt | USV.py:184 | `audio[i:i + window_size]` (the definition) |
| FileAnalysis.BandAt | USV.py:187-192 | the band magnitudes of the window at `i` (the definition) |
| FileAnalysis.Triggers | USV.py:194-197 | a window triggers when its band is non-empty and its RMS is strictly above the threshold (the definition) |
| FileAnalysis.RecordAt | USV.py:199-208 | the record of the window at `i`: times, duration, RMS, peak and band frequencies (the definition; its meaning is `RecordWindow`, `RecordTimes` and `LoudRecord`) |
| FileAnalysis.WindowOutcome | USV.py:184-208 | one iteration: an error for an empty window, otherwise the window's record or nothing (the definition; its meaning is `ScanStep` and `ScanStepWindow`) |
| FileAnalysis.Scan | USV.py:178-208 | the loop over the starts, stopping at the first error (the definition; its meaning is `ScanIsRecordsOfHits` and `FailureSticks`) |
| FileAnalysis.Run | USV.py:175-210 | the analysis after the sizes: the two divisions, then the loop (the definition; its meaning is `DetectionsAreTriggeringWindows`) |
| FileAnalysis.Analyze | USV.py:161-217 | the whole analysis of one job (the definition) |
| FileAnalysis.ProgressAt | USV.py:180 | `(i / hop_size) / total_windows * 100` (the definition; its meaning is `ProgressOfWindow`) |
| FileAnalysis.PostedOver | USV.py:178-181 | the percentages posted by the loop over the starts, none after an error (the definition; its meaning is `PostedWhileSucceeding`) |
| FileAnalysis.Posted | USV.py:176-181 | the percentages one run posts (the definition; its meaning is `PostedOnSuccess` and `ProgressBounded`) |
| FileAnalysis.Progress | USV.py:161-181 | the percentages one call of the analysis posts (the definition) |
| FileAnalysis.SampleIndex | USV.py:307-308 | `int(t * sample_rate)` (the definition; its meaning is `SecondsBackToSample`) |
| FileAnalysis.SpanOf | USV.py:307-309 | a record's span `audio[start_idx:end_idx]` (the definition; its meaning is `SpanOfIndices` and `SpanOfWindow`) |
| FileAnalysis.Combined | USV.py:305-310 | the spans of the records concatenated in order (the definition; its meaning is `CombinedLayout`) |
| FileAnalysis.PlaybackOf | USV.py:300-315 | the warning, nothing played, or the combined audio at the file's rate (the definition; its meaning is `PlaybackOfWindows` and `PlaysDetectedWindows`) |
| FileAnalysis.ZeroRateZeroHop | USV.py:172-173 | a zero sample rate gives a zero window size and a zero hop |
| FileAnalysis.ShortWindowFails | USV.py:172-176 | a window shorter than one sample truncates to 0, so the hop is 0 and the analysis fails with `ZeroHop` before the loop |
| FileAnalysis.OversizedHopFails | USV.py:176-180 | when the hop is longer than the buffer but the loop still runs, `total_windows` is 0 and the first progress division fails |
| FileAnalysis.SettingsWellFormed | USV.py:172-173 | settings whose window holds a sample and whose overlap leaves a sample give a positive hop no larger than the window |
| FileAnalysis.WindowsInsideBuffer | USV.py:178-184 | the starts are exactly `0, hop, 2*hop, …`; every window `[i, i + window_size)` lies strictly inside the buffer and is that slice; the starts cover the buffer up to the dropped tail |
| FileAnalysis.WindowCount | USV.py:178 | the loop visits `ceil((L - window_size)/hop)` windows when `L > window_size`, and none otherwise |
| FileAnalysis.StartsInsideBuffer | USV.py:178-184 | every visited start leaves its whole window inside the buffer, with room to spare |
| FileAnalysis.WellFormedWindows | USV.py:178-184 | with a positive hop no larger than the window, every visited window is full length, and the starts strictly increase |
| FileAnalysis.WellFormedTotal | USV.py:176-180 | if the loop runs at all, `total_windows` is at least 1, so the progress division never fails |
| FileAnalysis.Hits | USV.py:194-201 | the triggering starts are visited starts, with non-empty windows, that all trigger |
| FileAnalysis.HitsComplete | USV.py:194-201 | every visited start that triggers is among the triggering starts |
| FileAnalysis.HitsIncreasing | USV.py:178-201 | the triggering starts keep the loop's increasing order |
| FileAnalysis.RecordsOf | USV.py:201-208 | one record per triggering start |
| FileAnalysis.RecordOfHit | USV.py:199-208 | the `j`-th record is the record of the `j`-th triggering window |
| FileAnalysis.RecordsOfAt | USV.py:199-208 | every record is the record of the triggering window at the same position |
| FileAnalysis.ScanIsRecordsOfHits | USV.py:178-208 | over non-empty windows the loop succeeds with exactly one record per triggering window, in order, with no merging |
| FileAnalysis.ScanStepTriggers | USV.py:194-208 | a triggering window appends its record to the result so far |
| FileAnalysis.ScanStepQuiet | USV.py:194-208 | a window that does not trigger leaves the result unchanged |
| FileAnalysis.DetectionsAreTriggeringWindows | USV.py:178-210 | a well-formed run succeeds with the records of exactly the triggering windows, in increasing start order |
| FileAnalysis.SpanSeconds | USV.py:199-204 | a window inside the buffer starts at a non-negative time, ends later and before the end of the recording, and lasts `window_size/fs` |
| FileAnalysis.RecordWindow | USV.py:199-200 | a record starts at `i/fs` and ends at `(i + window_size)/fs` |
| FileAnalysis.RecordTimes | USV.py:199-204 | a record of a window inside the buffer has `0 <= start < end < L/fs` and `duration = end - start = window_size/fs` |
| FileAnalysis.HitRecordTimes | USV.py:199-208 | the `j`-th record carries the start and end times of the `j`-th triggering window |
| FileAnalysis.HitRecordWindows | USV.py:199-208 | each record's times are those of its triggering window, which lies inside the buffer |
| FileAnalysis.DetectionTimes | USV.py:199-204 | every detection of a well-formed run has `0 <= start < end < L/fs` and `duration = end - start = window_size/fs` |
| FileAnalysis.LoudRecord | USV.py:194-207 | a triggering window's record has RMS above the threshold and a non-empty list of band frequencies, all at or above the cutoff |
| FileAnalysis.DetectionsAreLoud | USV.py:194-207 | every detection has RMS strictly above the threshold and at least one band frequency, and lists only frequencies at or above the cutoff |
| FileAnalysis.DetectionsOrdered | USV.py:178-208 | detections appear in strictly increasing start time |
| FileAnalysis.QuietAboveTopBin | USV.py:188-197 | a full window never triggers when the cutoff is above its top bin |
| FileAnalysis.EmptyBandDetectsNothing | USV.py:188-210 | with the cutoff above the top bin, a well-formed run succeeds with no detections |
| FileAnalysis.ThresholdOnlyGates | USV.py:194-208 | raising the threshold changes neither the windows nor the records, and a window that triggers at the higher threshold also triggers at the lower one |
| FileAnalysis.ScanMonotone | USV.py:178-208 | raising the threshold keeps success or failure the same and yields a subsequence of the detections |
| FileAnalysis.RunMonotone | USV.py:175-208 | the same, for the whole run after the sizes are derived |
| FileAnalysis.ParamsIgnoreThreshold | USV.py:164-173 | the threshold affects none of the derived sizes or the cutoff |
| FileAnalysis.ThresholdMonotone | USV.py:164-208 | raising the threshold setting gives a subsequence of the detections, never more of them, and the same success or failure |
| FileAnalysis.ProgressOfWindow | USV.py:180 | the percentage before the `k`-th window is `100*k/total_windows` |
| FileAnalysis.WindowIndexAtMostTotal | USV.py:176-180 | a visited window's index never exceeds `total_windows` |
| FileAnalysis.PercentBounds | USV.py:180 | for such an index the percentage lies in `[0, 100]` |
| FileAnalysis.PercentIncreasing | USV.py:180 | percentages strictly increase with the window index |
| FileAnalysis.ProgressEntry | USV.py:178-181 | the `k`-th posted percentage of a complete run is `100*k/total_windows` and lies in `[0, 100]` |
| FileAnalysis.ProgressBounded | USV.py:178-181 | the percentages of a complete run all lie in `[0, 100]` and strictly increase |
| FileAnalysis.PostedWhileSucceeding | USV.py:178-181 | while the loop succeeds it posts one percentage per window, in order |
| FileAnalysis.PostedOnSuccess | USV.py:178-181 | a successful run posts exactly the full progress series |
| FileAnalysis.FailureSticks | USV.py:178-215 | after the first error, later windows change neither the result nor the posted progress |
| FileAnalysis.ScanStep | USV.py:180-187 | each iteration posts its percentage before cutting its window, and an empty window then raises |
| FileAnalysis.ScanStepWindow | USV.py:184-208 | a non-empty window appends its record exactly when it triggers |
| FileAnalysis.CollectIsScan | USV.py:178-208 | folding the per-window outcomes in order gives the loop's result |
| FileAnalysis.OutcomesSnoc | USV.py:178-208 | extending the visited starts by one window extends the outcome table by that window's outcome |
| FileAnalysis.LoopStarts | USV.py:175-178 | before the loop: no records, nothing posted, at the first start |
| FileAnalysis.LoopSoFar | USV.py:178-208 | after `k` iterations the records are those of the first `k` windows and the posted percentages are theirs |
| FileAnalysis.LoopNext | USV.py:178-208 | a successful iteration moves to the next start, appends the window's records and posts one percentage |
| FileAnalysis.LoopEnds | USV.py:178-210 | when the range is exhausted the records collected are the run's result and the posted progress is all of it |
| FileAnalysis.LoopRaises | USV.py:176-187 | an iteration that raises ends the run with that error, after posting what the loop had posted |
| FileAnalysis.SecondsBackToSample | USV.py:307-308 | `int(start_time * sample_rate)` recovers the start index of a window exactly |
| FileAnalysis.SpanOfIndices | USV.py:307-309 | a record's span is the slice between its two recovered indices |
| FileAnalysis.SpanOfWindow | USV.py:307-309 | a record of the window at `s` spans exactly `audio[s:s + window_size]` |
| FileAnalysis.WindowSpans | USV.py:306-309 | records of in-buffer windows have those windows as spans |
| FileAnalysis.CombinedSnoc | USV.py:306-310 | each record extends the combined audio by its span |
| FileAnalysis.CombinedLayout | USV.py:305-310 | the combined audio is the concatenation of the windows, in order |
| FileAnalysis.ConcatLength | USV.py:305-310 | concatenating `m` windows of `w` samples gives `m*w` samples, so overlapping windows repeat samples |
| FileAnalysis.PlaybackOfWindows | USV.py:300-315 | with no records nothing is played; otherwise the concatenated windows are played at the file's rate |
| FileAnalysis.PlaysDetectedWindows | USV.py:300-315 | after a well-formed run, playback is nothing when no window triggered, and otherwise the in-order concatenation of the triggering windows, one per detection |
| FileAnalysis.HitsInsideBuffer | USV.py:178-201 | every triggering window lies inside the buffer |
| FileAnalyzerApp.FileAnalyzer.constructor | USV.py:26-28 | the first load of a file: the window holds the loaded samples and their rate, no results yet (`detection_results = None`) and nothing posted; a later `select_file` (USV.py:130) replaces the audio without clearing the results, and is not modelled |
| FileAnalyzerApp.FileAnalyzer.AnalyzeAudioData | USV.py:161-217 | the result and the posted progress are those of `Analyze`; the results are replaced only on success, otherwise the previous ones stay |
| FileAnalyzerApp.FileAnalyzer.ScanWindows | USV.py:175-217 | the loop's result and posted progress are `Run` and `Posted`; the results are published only when the loop completes |
| FileAnalyzerApp.FileAnalyzer.WindowLoop | USV.py:178-208 | the loop stops either at the end of the range with the invariant intact, or at the iteration that raises, with what it posted |
| FileAnalyzerApp.FileAnalyzer.Iteration | USV.py:179-208 | one iteration posts its percentage, then either raises on an empty window or advances the invariant by the window's outcome |
| FileAnalyzerApp.FileAnalyzer.AnalyzeWindow | USV.py:186-208 | a non-empty window yields its record exactly when it triggers |
| FileAnalyzerApp.FileAnalyzer.PlayDetection | USV.py:298-318 | the playback is `PlaybackOf` the current results: a warning when there are none, nothing when all spans are empty, otherwise the concatenation |
| Devices.IsScarlett | USV_detector.py:89-90 | a device matches when its lowered name contains "scarlett" or "focusrite" and it has an input channel (the definition) |
| Devices.CheckDevices | USV_detector.py:80-114 | the decision: query error, not found, or the first match probed at 192 kHz and then 96 kHz (the definition; its meaning is `ReadyIff`, `OnlyFirstProbed`, `NoScarlettNotFound` and `FallbackIsNotSuccess`) |
| Devices.FirstScarlett | USV_detector.py:86-92 | the index found is that of a matching device with no match before it, and no index is found only when no device matches |
| Devices.Reply | USV_detector.py:94-114 | only the `Ready` decision reports ok |
| Devices.CheckAudioDevices | USV_detector.py:78-114 | the loop with `break` and the probes return the `(ok, message)` of `CheckDevices` |
| Devices.ReadyIff | USV_detector.py:86-111 | the check reports ok iff the query succeeds, some device matches, and the first match accepts 192 kHz |
| Devices.OnlyFirstProbed | USV_detector.py:86-111 | only the first matching device is probed: probes that agree on it give the same decision |
| Devices.NoScarlettNotFound | USV_detector.py:86-95 | with no matching device the result is "not found", whatever the probe says |
| Devices.FallbackIsNotSuccess | USV_detector.py:98-111 | a first match that rejects 192 kHz is never ok; accepting 96 kHz gives the 96 kHz message, and otherwise the message carries the 192 kHz error |
| LiveDetector.Cutoff | USV_detector.py:169 | the clamped cutoff is non-negative, at least the requested one, and equal to one of the two |
| LiveDetector.BlockBand | USV_detector.py:171-176 | a block's band magnitudes at 192 kHz (the definition) |
| LiveDetector.Decide | USV_detector.py:169-203 | a running block's outcome: an FFT error for an empty block, otherwise a pulse iff the band RMS is above the threshold (the definition; its meaning is `PulseIff`) |
| LiveDetector.PulseIff | USV_detector.py:179-200 | with a non-negative threshold, a block pulses iff its band is non-empty and its RMS is strictly above the threshold; an empty band gives a quiet RMS of 0.0 |
| LiveDetector.FullBlockBandEmptyIff | USV_detector.py:163-182 | for a full block of 16384 samples at 192 kHz, the band is empty exactly when the clamped cutoff is above 96000 Hz |
| LiveDetector.DebugLinesSpaced | USV_detector.py:183-188 | debug lines `j - i` apart in the log are more than `j - i` seconds apart |
| LiveDetector.Detector.constructor | USV_detector.py:19-50 | a new window is not running (`running = False`), holds no chip handle (`handle = None`), has started no detector thread, written nothing to the GPIO, requested no pulse, has no `_last_debug_print_time` attribute yet and has printed no debug line; it satisfies `Valid` |
| LiveDetector.Detector.Start | USV_detector.py:116-145 | a failed device check changes nothing; otherwise `running` is set, and it is cleared again when opening the chip or starting the thread raises; a handle opened before the thread fails is kept |
| LiveDetector.Detector.Stop | USV_detector.py:147-154 | `running` is cleared and the handle forgotten; the chip is closed only if a handle was held |
| LiveDetector.Detector.StopTwice | USV_detector.py:147-154 | stopping twice closes the chip at most once |
| LiveDetector.Detector.SendTtl | USV_detector.py:156-160 | claim, write 1, write 0: the pin ends low and no other pin changes; with no handle nothing is written, and a negative duration leaves the pin high |
| LiveDetector.Detector.Measure | USV_detector.py:171-187 | the block's band emptiness, RMS (0.0 for an empty band) and `freqs[-1]` are those of the reference `BlockBand`, `BandRms` and the top bin |
| LiveDetector.Detector.NoteEmptyBand | USV_detector.py:183-188 | on the first empty-band block the last-print time is created at 0 without printing; the debug line is printed only when more than a second has passed since the last-print time, which it then sets to now; otherwise nothing changes |
| LiveDetector.Detector.Callback | USV_detector.py:166-203 | a stopped session only requests the stream stop; a running one decides by `Decide` on this block alone, starts a pulse for every loud block, prints the debug line by the rate limit, and keeps the lines more than a second apart |

## Left out

- The floating-point numerics (`abs(rfft(...))`, `sqrt`) are abstract, and rounding of the float arithmetic is not modelled. Times, frequencies and percentages are exact reals. So NaN and infinities do not arise, and `int(start_time * fs)` recovers the start index exactly.
- `str.lower()` is modelled for ASCII letters only.
- Reading the entry fields (`float(var.get())`) is not modelled: the settings arrive as reals. A non-numeric entry, which raises inside the analysis and takes the error path, is not modelled.
- The Tkinter interface is not modelled: labels, buttons, message boxes and the progress bar widget. The progress values the analysis posts with `master.after` are kept as a log in posting order. The live callback's `master.after` updates (the RMS label and the detection label) are not logged: the `BlockOutcome` it returns carries the RMS and which detection label is shown. Its pulse threads are kept as a log of pulse requests, and its `print`ed debug lines as a log of debug lines.
- `display_results`, `save_results`, `create_visualization`, file loading (a second `select_file` replaces the audio but keeps the previous results; the model starts from one loaded file) and the three stand-alone scripts (`good_play_usv.py`, `recordind_usv.py`, `test_play.py`) are not part of this model.
- Threads are not modelled. That covers the analysis thread, the detector thread and its `while self.running: sleep(0.1)` loop, and one thread per pulse. It also covers interleavings, such as Stop closing the chip while a pulse or a callback is in flight. `Detector.Start` counts detector threads started; each pulse request is what one thread runs through `SendTtl`.
- Foreign calls and their failures beyond those named: the `sounddevice` stream, `sd.play` (its exception is not modelled), the device list printout, and malformed device entries. `lgpio` raising for an invalid pin or a closed handle is also left out. The device query, the probe, the chip open, the thread start and the clock are parameters.
- The callback takes channel 0 of `indata` as its block; `frames`, `time_info` and `status` are unused by the source.
- LiveDetector.Detector.Start: on a failed device check `running` keeps its previous value, since the source never assigns it. It is False whenever Start can be pressed, because the Start button is disabled while running.
